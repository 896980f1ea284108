/**
 The polling reader that streams the log of a run to a client
 (`_stream_events` in app/api/vibe_routes.py).
 */
module EventReader {
  import opened Wrappers
  import opened EventStream

  const BATCH: nat := 50

  predicate Terminal(e: Event) {
    e.kind.Done? || e.kind.Error?
  }

  /** How many events go out up to and including the first terminal one. */
  function StopAt(s: seq<Event>): (k: nat)
    ensures k <= |s| && (s != [] ==> k > 0)
  {
    if s == [] then 0 else if Terminal(s[0]) then 1 else 1 + StopAt(s[1..])
  }

  function UpToTerminal(s: seq<Event>): seq<Event> {
    s[..StopAt(s)]
  }

  /** The events stopped at are terminal or all of the list. */
  predicate EndsTerminal(s: seq<Event>) {
    s != [] && Terminal(s[StopAt(s) - 1])
  }

  lemma {:induction false} SkipQuiet(s: seq<Event>, n: nat)
    requires n <= |s| && forall i :: 0 <= i < n ==> !Terminal(s[i])
    ensures StopAt(s) == n + StopAt(s[n..])
  {
    if n > 0 {
      var rest := s[1..];
      assert forall i :: 0 <= i < n - 1 ==> rest[i] == s[i + 1];
      SkipQuiet(rest, n - 1);
      assert rest[n - 1..] == s[n..];
    }
  }

  lemma {:induction false} TerminalIsLast(s: seq<Event>, i: nat)
    requires i < StopAt(s) && Terminal(s[i])
    ensures i == StopAt(s) - 1
  {
    if i > 0 { TerminalIsLast(s[1..], i - 1); }
  }

  lemma {:induction false} QuietSendsAll(s: seq<Event>)
    requires !EndsTerminal(s)
    ensures StopAt(s) == |s|
  {
    if s != [] { QuietSendsAll(s[1..]); }
  }

  lemma {:induction false} StopIsFinal(s: seq<Event>, more: seq<Event>)
    requires EndsTerminal(s)
    ensures StopAt(s + more) == StopAt(s)
  {
    if !Terminal(s[0]) {
      assert (s + more)[1..] == s[1..] + more;
      StopIsFinal(s[1..], more);
    }
  }

  datatype Reader = Reader(seen: nat, emitted: seq<Event>, ended: bool, idle: nat)

  const START: Reader := Reader(0, [], false, 0)

  predicate Active(r: Reader, patience: nat) {
    !r.ended && r.idle < patience
  }

  /** What a batch does to the reader. */
  function Taken(r: Reader, batch: seq<Event>, runOver: bool): Reader {
    Reader(r.seen + StopAt(batch), r.emitted + UpToTerminal(batch), EndsTerminal(batch),
           if batch != [] then r.idle else if runOver then r.idle + 1 else 0)
  }

  function PollOnce(r: Reader, log: seq<Event>, runOver: bool, patience: nat): Reader {
    if !Active(r, patience) then r else Taken(r, Slice(log, r.seen, r.seen + BATCH), runOver)
  }

  /** What one poll finds: the log at that moment, and whether the session reports the run as over. */
  datatype Snapshot = Snapshot(log: seq<Event>, runOver: bool)

  function PollAll(snaps: seq<Snapshot>, patience: nat): Reader {
    if snaps == [] then START
    else
      var last := snaps[|snaps| - 1];
      PollOnce(PollAll(snaps[..|snaps| - 1], patience), last.log, last.runOver, patience)
  }

  lemma {:induction false} OnceOverAlwaysOver(snaps: seq<Snapshot>, patience: nat, k: nat)
    requires k <= |snaps| && !Active(PollAll(snaps[..k], patience), patience)
    ensures PollAll(snaps, patience) == PollAll(snaps[..k], patience)
  {
    if k == |snaps| {
      assert snaps[..k] == snaps;
    } else {
      var n := |snaps| - 1;
      var before := snaps[..n];
      assert before[..k] == snaps[..k];
      OnceOverAlwaysOver(before, patience, k);
    }
  }

  /** The inner loop: sends the events of a batch one by one, and stops after a terminal one. */
  method Send(events: seq<Event>, seen0: nat, emitted0: seq<Event>)
    returns (seen: nat, emitted: seq<Event>, ended: bool)
    ensures emitted == emitted0 + UpToTerminal(events) && seen == seen0 + StopAt(events)
    ensures ended <==> EndsTerminal(events)
  {
    seen, emitted := seen0, emitted0;
    var k := 0;
    while k < |events|
      invariant 0 <= k <= |events| && seen == seen0 + k && emitted == emitted0 + events[..k]
      invariant forall j :: 0 <= j < k ==> !Terminal(events[j])
    {
      seen := seen + 1;
      emitted := emitted + [events[k]];
      assert emitted == emitted0 + events[..k + 1];
      if Terminal(events[k]) {
        SkipQuiet(events, k);
        return seen, emitted, true;
      }
      k := k + 1;
    }
    ended := false;
    SkipQuiet(events, k);
  }

  lemma PollAllNext(snaps: seq<Snapshot>, patience: nat, i: nat)
    requires i < |snaps|
    ensures PollAll(snaps[..i + 1], patience)
         == PollOnce(PollAll(snaps[..i], patience), snaps[i].log, snaps[i].runOver, patience)
  {
    assert snaps[..i + 1][..i] == snaps[..i];
  }

  /** One turn of the generator's loop. */
  method Turn(r: Reader, snap: Snapshot, patience: nat) returns (next: Reader)
    requires Active(r, patience)
    ensures next == PollOnce(r, snap.log, snap.runOver, patience)
  {
    var events := Slice(snap.log, r.seen, r.seen + BATCH);
    var seen, emitted, ended := Send(events, r.seen, r.emitted);
    var idle := r.idle;
    if events == [] {
      idle := if snap.runOver then idle + 1 else 0;
    }
    next := Reader(seen, emitted, ended, idle);
  }

  /** The generator: polls until a terminal event, until patience runs out, or until the client stops polling. */
  method Generate(snaps: seq<Snapshot>, patience: nat) returns (r: Reader)
    ensures r == PollAll(snaps, patience)
  {
    r := START;
    var i := 0;
    while i < |snaps| && !r.ended && r.idle < patience
      invariant 0 <= i <= |snaps| && r == PollAll(snaps[..i], patience)
    {
      PollAllNext(snaps, patience, i);
      r := Turn(r, snaps[i], patience);
      i := i + 1;
    }
    if i < |snaps| {
      OnceOverAlwaysOver(snaps, patience, i);
    } else {
      assert snaps[..i] == snaps;
    }
  }

  // ------------------------------------------------------------------------
  // Publishers and the reader together
  // ------------------------------------------------------------------------

  /** The reader fetches a batch and, only when that is empty, asks for the status of the run in a step of its own. */
  datatype Act = Publish(d: Draft) | Fetch | Check(runOver: bool)

  /** `fetched` is the log in which the last fetch found nothing, until the status has been asked for. */
  datatype System = System(run: RunState, reader: Reader, fetched: Option<seq<Event>>)

  function FetchStep(s: System, patience: nat): System {
    if s.fetched.Some? || !Active(s.reader, patience) then s
    else if Slice(s.run.log, s.reader.seen, s.reader.seen + BATCH) == [] then s.(fetched := Some(s.run.log))
    else s.(reader := PollOnce(s.reader, s.run.log, false, patience))
  }

  function CheckStep(s: System, runOver: bool): System {
    if s.fetched.None? then s
    else s.(reader := s.reader.(idle := if runOver then s.reader.idle + 1 else 0), fetched := None)
  }

  function Act1(s: System, a: Act, patience: nat): System {
    match a
    case Publish(d) => s.(run := Published(s.run, d))
    case Fetch => FetchStep(s, patience)
    case Check(runOver) => CheckStep(s, runOver)
  }

  function RunFrom(s: System, acts: seq<Act>, patience: nat): System {
    if acts == [] then s else Act1(RunFrom(s, acts[..|acts| - 1], patience), acts[|acts| - 1], patience)
  }

  function RunSystem(acts: seq<Act>, patience: nat): System {
    RunFrom(System(FRESH, START, None), acts, patience)
  }

  /** What the turns of the reader found: the log it fetched from, and the status it was told afterwards. */
  function Snapshots(acts: seq<Act>, patience: nat): seq<Snapshot> {
    if acts == [] then []
    else
      var rest, a := acts[..|acts| - 1], acts[|acts| - 1];
      var s := RunSystem(rest, patience);
      if a.Fetch? && FetchStep(s, patience).reader != s.reader then
        Snapshots(rest, patience) + [Snapshot(s.run.log, false)]
      else if a.Check? && s.fetched.Some? then
        Snapshots(rest, patience) + [Snapshot(s.fetched.value, a.runOver)]
      else Snapshots(rest, patience)
  }

  /** A reader that waits for the status is active, and had sent all of the log it fetched from. */
  ghost predicate Waits(s: System, patience: nat) {
    s.fetched.Some? ==>
      Active(s.reader, patience) && Slice(s.fetched.value, s.reader.seen, s.reader.seen + BATCH) == []
  }

  lemma StepWaits(s: System, a: Act, patience: nat)
    requires Waits(s, patience)
    ensures Waits(Act1(s, a, patience), patience)
    ensures a.Check? && s.fetched.Some? ==>
              Act1(s, a, patience).reader == PollOnce(s.reader, s.fetched.value, a.runOver, patience)
  {
    var nothing: seq<Event> := [];
    assert s.reader.emitted + UpToTerminal(nothing) == s.reader.emitted;
  }

  lemma {:induction false} RunWaits(s: System, acts: seq<Act>, patience: nat)
    requires Waits(s, patience)
    ensures Waits(RunFrom(s, acts, patience), patience)
  {
    if acts != [] {
      RunWaits(s, acts[..|acts| - 1], patience);
      StepWaits(RunFrom(s, acts[..|acts| - 1], patience), acts[|acts| - 1], patience);
    }
  }

  /** Seen from the reader, an interleaved run is the sequence of logs and status replies it was given. */
  lemma {:induction false} ReaderSeesSnapshots(acts: seq<Act>, patience: nat)
    ensures RunSystem(acts, patience).reader == PollAll(Snapshots(acts, patience), patience)
  {
    if acts != [] {
      var rest, a := acts[..|acts| - 1], acts[|acts| - 1];
      ReaderSeesSnapshots(rest, patience);
      RunWaits(System(FRESH, START, None), rest, patience);
      StepWaits(RunSystem(rest, patience), a, patience);
      var snaps := Snapshots(acts, patience);
      if |snaps| > |Snapshots(rest, patience)| {
        assert snaps[..|snaps| - 1] == Snapshots(rest, patience);
      }
    }
  }

  /** The reader has sent exactly a prefix of the log, and nothing after the first terminal event. */
  ghost predicate Delivered(r: Reader, log: seq<Event>) {
    && r.seen <= |log| && r.emitted == log[..r.seen]
    && (if r.ended then EndsTerminal(log) && r.seen == StopAt(log)
        else forall i :: 0 <= i < r.seen ==> !Terminal(log[i]))
  }

  lemma PublishKeepsDelivered(r: Reader, s: RunState, d: Draft)
    requires Delivered(r, s.log)
    ensures Delivered(r, Published(s, d).log)
  {
    if r.ended && d.wellFormed {
      StopIsFinal(s.log, [Stamp(d, s.next)]);
    }
  }

  /** The terminal event of a batch that continues a quiet prefix is the terminal event of the log. */
  lemma BatchEnds(log: seq<Event>, seen: nat, batch: seq<Event>)
    requires seen <= |log| && batch == Slice(log, seen, seen + BATCH) && EndsTerminal(batch)
    requires forall i :: 0 <= i < seen ==> !Terminal(log[i])
    ensures EndsTerminal(log) && StopAt(log) == seen + StopAt(batch)
  {
    var rest := log[seen..];
    assert rest == batch + rest[|batch|..];
    StopIsFinal(batch, rest[|batch|..]);
    SkipQuiet(log, seen);
    assert log[seen + StopAt(batch) - 1] == batch[StopAt(batch) - 1];
  }

  lemma BatchQuiet(log: seq<Event>, seen: nat, batch: seq<Event>)
    requires seen <= |log| && batch == Slice(log, seen, seen + BATCH) && !EndsTerminal(batch)
    requires forall i :: 0 <= i < seen ==> !Terminal(log[i])
    ensures StopAt(batch) == |batch| && forall i :: 0 <= i < seen + |batch| ==> !Terminal(log[i])
  {
    QuietSendsAll(batch);
    SliceIsPart(log, seen);
    QuietPart(log, seen, |batch|);
  }

  lemma QuietPart(log: seq<Event>, seen: nat, n: nat)
    requires seen + n <= |log| && !EndsTerminal(log[seen..seen + n])
    requires forall i :: 0 <= i < seen ==> !Terminal(log[i])
    ensures forall i :: 0 <= i < seen + n ==> !Terminal(log[i])
  {
    var batch := log[seen..seen + n];
    QuietBatch(batch);
    forall i | seen <= i < seen + n ensures !Terminal(log[i]) {
      assert log[i] == batch[i - seen];
    }
  }

  lemma SliceIsPart(log: seq<Event>, seen: nat)
    requires seen <= |log|
    ensures var batch := Slice(log, seen, seen + BATCH);
            seen + |batch| <= |log| && batch == log[seen..seen + |batch|]
  {}

  lemma QuietBatch(batch: seq<Event>)
    requires !EndsTerminal(batch)
    ensures forall k :: 0 <= k < |batch| ==> !Terminal(batch[k])
  {
    QuietSendsAll(batch);
    forall k | 0 <= k < |batch| ensures !Terminal(batch[k]) {
      if Terminal(batch[k]) { TerminalIsLast(batch, k); }
    }
  }

  lemma PollKeepsDelivered(r: Reader, log: seq<Event>, runOver: bool, patience: nat)
    requires Delivered(r, log)
    ensures Delivered(PollOnce(r, log, runOver, patience), log)
  {
    if Active(r, patience) {
      var batch := Slice(log, r.seen, r.seen + BATCH);
      if EndsTerminal(batch) { BatchEnds(log, r.seen, batch); } else { BatchQuiet(log, r.seen, batch); }
      assert log[..r.seen] + UpToTerminal(batch) == log[..r.seen + StopAt(batch)];
    }
  }

  /** What every step of an interleaving keeps; a waiting reader has sent all of the log it fetched from. */
  ghost predicate InStep(s: System, patience: nat) {
    && Delivered(s.reader, s.run.log) && Waits(s, patience)
    && (s.fetched.Some? ==> s.reader.emitted == s.fetched.value <= s.run.log)
  }

  lemma StepInStep(s: System, a: Act, patience: nat)
    requires InStep(s, patience)
    ensures InStep(Act1(s, a, patience), patience)
  {
    StepWaits(s, a, patience);
    if a.Publish? {
      PublishKeepsDelivered(s.reader, s.run, a.d);
    } else if a.Fetch? {
      PollKeepsDelivered(s.reader, s.run.log, false, patience);
      if Active(s.reader, patience) && Slice(s.run.log, s.reader.seen, s.reader.seen + BATCH) == [] {
        assert s.reader.seen == |s.run.log|;
      }
    }
  }

  lemma {:induction false} RunInStep(acts: seq<Act>, patience: nat)
    ensures InStep(RunSystem(acts, patience), patience)
  {
    if acts != [] {
      RunInStep(acts[..|acts| - 1], patience);
      StepInStep(RunSystem(acts[..|acts| - 1], patience), acts[|acts| - 1], patience);
    }
  }

  /** Exactly once, in order: at every moment of every interleaving the client has received a prefix of the log. */
  lemma ExactlyOnce(acts: seq<Act>, patience: nat)
    ensures var s := RunSystem(acts, patience); Delivered(s.reader, s.run.log)
  {
    RunInStep(acts, patience);
  }

  predicate IsFinal(e: Event) {
    e.kind == Done || e.kind == Error
  }

  /** The stream has ended exactly when the last event sent is a done or an error, which none before it is. */
  lemma EndsWithFinal(acts: seq<Act>, patience: nat)
    ensures var r := RunSystem(acts, patience).reader;
            && (r.ended <==> r.emitted != [] && IsFinal(r.emitted[|r.emitted| - 1]))
            && forall i :: 0 <= i < |r.emitted| - 1 ==> !IsFinal(r.emitted[i])
  {
    var s := RunSystem(acts, patience);
    var r, log := s.reader, s.run.log;
    ExactlyOnce(acts, patience);
    forall i | 0 <= i < |r.emitted| - 1 ensures !IsFinal(r.emitted[i]) {
      if r.ended && Terminal(log[i]) { TerminalIsLast(log, i); }
    }
  }

  lemma AllSent(r: Reader, log: seq<Event>)
    requires Delivered(r, log) && !r.ended && r.seen == |log|
    ensures r.emitted == log == UpToTerminal(log)
  {
    SkipQuiet(log, |log|);
  }

  // ------------------------------------------------------------------------
  // Giving up
  // ------------------------------------------------------------------------

  /** The step ends the stream without a terminal event. */
  ghost predicate GivesUp(s: System, a: Act, patience: nat) {
    var t := Act1(s, a, patience);
    Active(s.reader, patience) && !Active(t.reader, patience) && !t.reader.ended
  }

  /**
   Over every interleaving a reader gives up only on being told that the run is over, having sent the log as it was at
   its last fetch; it has sent the whole log if and only if that has not grown since.
   */
  lemma GivesUpExactly(acts: seq<Act>, a: Act, patience: nat)
    requires GivesUp(RunSystem(acts, patience), a, patience)
    ensures var s := RunSystem(acts, patience);
            var t := RunSystem(acts + [a], patience);
            && a == Check(true) && s.fetched.Some? && t.reader.emitted == s.fetched.value <= t.run.log
            && (t.reader.emitted == t.run.log <==> |s.run.log| == |s.fetched.value|)
            && forall i :: 0 <= i < |t.reader.emitted| ==> !Terminal(t.reader.emitted[i])
  {
    assert (acts + [a])[..|acts|] == acts;
    RunInStep(acts, patience);
  }

  function PublishAll(s: RunState, drafts: seq<Draft>): RunState {
    if drafts == [] then s else Published(PublishAll(s, drafts[..|drafts| - 1]), drafts[|drafts| - 1])
  }

  predicate AllMalformed(drafts: seq<Draft>) {
    forall i :: 0 <= i < |drafts| ==> !drafts[i].wellFormed
  }

  lemma {:induction false} PublishAllGrows(s: RunState, drafts: seq<Draft>)
    ensures s.log <= PublishAll(s, drafts).log
    ensures PublishAll(s, drafts).log == s.log <==> AllMalformed(drafts)
  {
    if drafts != [] {
      var front, d := drafts[..|drafts| - 1], drafts[|drafts| - 1];
      PublishAllGrows(s, front);
      assert AllMalformed(drafts) <==> AllMalformed(front) && !d.wellFormed;
    }
  }

  /** The last turn: a fetch that finds nothing, then whatever is published, then the status. */
  function LastTurn(s: System, drafts: seq<Draft>, runOver: bool, patience: nat): System {
    var fetched := FetchStep(s, patience);
    CheckStep(fetched.(run := PublishAll(fetched.run, drafts)), runOver)
  }

  /** So the reader that gives up has missed something exactly when a publish that is kept fell in its last turn. */
  lemma MissesExactly(acts: seq<Act>, drafts: seq<Draft>, runOver: bool, patience: nat)
    requires var s := RunSystem(acts, patience);
             var t := LastTurn(s, drafts, runOver, patience);
             Active(s.reader, patience) && s.fetched.None? && !t.reader.ended && !Active(t.reader, patience)
    ensures var s := RunSystem(acts, patience);
            var t := LastTurn(s, drafts, runOver, patience);
            && runOver && t.reader.emitted == s.run.log
            && (t.reader.emitted == t.run.log <==> AllMalformed(drafts))
  {
    var s := RunSystem(acts, patience);
    RunInStep(acts, patience);
    StepInStep(s, Fetch, patience);
    PublishAllGrows(s.run, drafts);
  }

  /** The final event is published between the fetch and the status: the reader stops without it. */
  lemma DoneIsMissed(d: Draft)
    requires d.wellFormed && d.kind.Done? && d.number.None?
    ensures var s := RunSystem([Fetch, Publish(d), Check(true)], 1);
            !Active(s.reader, 1) && s.reader.emitted == [] && s.run.log == [Stamp(d, 0)]
  {
    var s0, a1, a2 := System(FRESH, START, None), [Fetch], [Fetch, Publish(d)];
    var acts := [Fetch, Publish(d), Check(true)];
    var s1, s2 := System(FRESH, START, Some([])), System(RunState([Stamp(d, 0)], 1), START, Some([]));
    assert FetchStep(s0, 1) == s1;
    NextAct(s0, [], Fetch, a1, 1);
    NextAct(s0, a1, Publish(d), a2, 1);
    assert Act1(s1, Publish(d), 1) == s2;
    NextAct(s0, a2, Check(true), acts, 1);
  }

  lemma NextAct(s: System, acts: seq<Act>, a: Act, all: seq<Act>, patience: nat)
    requires all == acts + [a]
    ensures RunFrom(s, all, patience) == Act1(RunFrom(s, acts, patience), a, patience)
  {
    assert all[..|acts|] == acts;
  }

  /** Of a single moment: a poll that makes the reader give up found a finished run and nothing left to send. */
  lemma GivesUpOnlyWhenDone(r: Reader, log: seq<Event>, runOver: bool, patience: nat)
    requires Delivered(r, log) && Active(r, patience) && PollOnce(r, log, runOver, patience).idle >= patience
    ensures runOver && r.emitted == log == UpToTerminal(log)
    ensures PollOnce(r, log, runOver, patience).emitted == log
  {
    assert r.seen == |log|;
    AllSent(r, log);
  }

  // ------------------------------------------------------------------------
  // A log lost under the reader
  // ------------------------------------------------------------------------

  function DropFirst(log: seq<Event>, n: nat): seq<Event> {
    if n <= |log| then log[n..] else []
  }

  /** The reader as one that started on the log without its first `n` events; `sent` is what went out before. */
  ghost predicate Resumed(r: Reader, log: seq<Event>, n: nat, sent: seq<Event>) {
    && r.seen >= n && sent <= r.emitted
    && Delivered(Inner(r, n, sent), DropFirst(log, n))
  }

  lemma SliceShifts(log: seq<Event>, n: nat, k: nat)
    ensures Slice(log, n + k, n + k + BATCH) == Slice(DropFirst(log, n), k, k + BATCH)
  {}

  /** The reader without its first `n` events. */
  function Inner(r: Reader, n: nat, sent: seq<Event>): Reader
    requires r.seen >= n && sent <= r.emitted
  {
    Reader(r.seen - n, r.emitted[|sent|..], r.ended, r.idle)
  }

  /** A poll of both finds the same batch. */
  lemma PollsAlike(r: Reader, log: seq<Event>, n: nat, sent: seq<Event>, patience: nat)
    requires r.seen >= n && sent <= r.emitted
    ensures var t := PollOnce(r, log, false, patience);
            && t.seen >= n && sent <= t.emitted
            && Inner(t, n, sent) == PollOnce(Inner(r, n, sent), DropFirst(log, n), false, patience)
  {
    if Active(r, patience) {
      SliceShifts(log, n, r.seen - n);
      TakenAlike(r, Slice(log, r.seen, r.seen + BATCH), n, sent);
    }
  }

  lemma TakenAlike(r: Reader, batch: seq<Event>, n: nat, sent: seq<Event>)
    requires r.seen >= n && sent <= r.emitted
    ensures var t := Taken(r, batch, false);
            t.seen >= n && sent <= t.emitted && Inner(t, n, sent) == Taken(Inner(r, n, sent), batch, false)
  {
    SuffixOfSum(sent, r.emitted, UpToTerminal(batch));
  }

  lemma PollResumed(r: Reader, log: seq<Event>, n: nat, sent: seq<Event>, patience: nat)
    requires Resumed(r, log, n, sent)
    ensures Resumed(PollOnce(r, log, false, patience), log, n, sent)
  {
    PollsAlike(r, log, n, sent, patience);
    PollKeepsDelivered(Inner(r, n, sent), DropFirst(log, n), false, patience);
  }

  lemma SuffixOfSum(sent: seq<Event>, s: seq<Event>, more: seq<Event>)
    requires sent <= s
    ensures sent <= s + more && (s + more)[|sent|..] == s[|sent|..] + more
  {}

  lemma StepResumed(s: System, a: Act, n: nat, sent: seq<Event>, patience: nat)
    requires Resumed(s.reader, s.run.log, n, sent)
    ensures Resumed(Act1(s, a, patience).reader, Act1(s, a, patience).run.log, n, sent)
  {
    var r := s.reader;
    var inner := Inner(r, n, sent);
    if a.Publish? && a.d.wellFormed {
      var rest := DropFirst(s.run.log, n);
      if n <= |s.run.log| {
        PublishKeepsDelivered(inner, RunState(rest, s.run.next), a.d);
        assert DropFirst(s.run.log + [Stamp(a.d, s.run.next)], n) == rest + [Stamp(a.d, s.run.next)];
      } else {
        assert DropFirst(s.run.log + [Stamp(a.d, s.run.next)], n) == [];
      }
    } else if a.Fetch? {
      PollResumed(r, s.run.log, n, sent, patience);
    }
  }

  lemma {:induction false} RunResumed(s: System, acts: seq<Act>, patience: nat)
    requires s.run.log == [] && !s.reader.ended
    ensures var t := RunFrom(s, acts, patience);
            Resumed(t.reader, t.run.log, s.reader.seen, s.reader.emitted)
  {
    if acts == [] {
      assert s.reader.emitted[|s.reader.emitted|..] == [];
    } else {
      var front := acts[..|acts| - 1];
      RunResumed(s, front, patience);
      StepResumed(RunFrom(s, front, patience), acts[|acts| - 1], s.reader.seen, s.reader.emitted, patience);
    }
  }

  /**
   After a loss - eviction, expiry, or a clear - the reader still asks for what follows the `n` events it has sent:
   over every interleaving it delivers the new log exactly once and in order, except for its first `n` events, which
   it never sends, and on whose terminal event it never ends.
   */
  lemma SkipsAfterLoss(s: System, acts: seq<Act>, patience: nat)
    requires s.run.log == [] && !s.reader.ended
    ensures var t := RunFrom(s, acts, patience);
            var n, sent := s.reader.seen, s.reader.emitted;
            && Resumed(t.reader, t.run.log, n, sent)
            && t.reader.emitted == sent + DropFirst(t.run.log, n)[..t.reader.seen - n]
            && (t.reader.emitted == sent + t.run.log ==> n == 0 || t.run.log == [])
  {
    RunResumed(s, acts, patience);
    var t := RunFrom(s, acts, patience);
    assert t.reader.emitted == s.reader.emitted + t.reader.emitted[|s.reader.emitted|..];
  }

  // ------------------------------------------------------------------------
  // Delivery
  // ------------------------------------------------------------------------

  function PollRepeatedly(r: Reader, log: seq<Event>, runOver: bool, patience: nat, times: nat): Reader
    decreases times
  {
    if times == 0 then r
    else PollOnce(PollRepeatedly(r, log, runOver, patience, times - 1), log, runOver, patience)
  }

  /** One poll of a log with something left either ends the stream on its terminal event or sends a whole batch. */
  lemma DrainStep(r: Reader, log: seq<Event>, runOver: bool, patience: nat)
    requires Delivered(r, log) && Active(r, patience) && r.seen < |log|
    ensures var next := PollOnce(r, log, runOver, patience);
            && Delivered(next, log)
            && (next.ended || (Active(next, patience) && (next.seen == r.seen + 50 || next.seen == |log|)))
  {
    PollKeepsDelivered(r, log, runOver, patience);
    var batch := Slice(log, r.seen, r.seen + BATCH);
    if !EndsTerminal(batch) { QuietSendsAll(batch); }
  }

  /** The reader has reached `target`, or is through with the log. */
  ghost predicate Reached(r: Reader, log: seq<Event>, patience: nat, target: int) {
    && Delivered(r, log)
    && (if Active(r, patience) then r.seen == |log| || r.seen >= target else r.emitted == UpToTerminal(log))
  }

  lemma PollReaches(r: Reader, log: seq<Event>, runOver: bool, patience: nat, target: int)
    requires Reached(r, log, patience, target)
    ensures Reached(PollOnce(r, log, runOver, patience), log, patience, target + 50)
  {
    if Active(r, patience) {
      if r.seen < |log| {
        DrainStep(r, log, runOver, patience);
      } else {
        PollKeepsDelivered(r, log, runOver, patience);
        AllSent(r, log);
      }
    }
  }

  lemma {:induction false} PollsReach(r: Reader, log: seq<Event>, runOver: bool, patience: nat, times: nat)
    requires Delivered(r, log) && Active(r, patience)
    ensures Reached(PollRepeatedly(r, log, runOver, patience, times), log, patience, r.seen + 50 * times)
    decreases times
  {
    if times > 0 {
      PollsReach(r, log, runOver, patience, times - 1);
      var before := PollRepeatedly(r, log, runOver, patience, times - 1);
      PollReaches(before, log, runOver, patience, r.seen + 50 * (times - 1));
    }
  }

  /** Delivery: enough polls of a log that has stopped growing send all of it, up to the first terminal event. */
  lemma Drains(r: Reader, log: seq<Event>, runOver: bool, patience: nat, times: nat)
    requires Delivered(r, log) && Active(r, patience) && r.seen + 50 * times >= |log|
    ensures PollRepeatedly(r, log, runOver, patience, times).emitted == UpToTerminal(log)
  {
    var last := PollRepeatedly(r, log, runOver, patience, times);
    PollsReach(r, log, runOver, patience, times);
    if Active(last, patience) { AllSent(last, log); }
  }
}
