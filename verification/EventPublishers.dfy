/**
 Publishers of one run that overlap (`publish` and `_next_seq` in app/infra/vibe_event_store.py). In memory the
 sequence counter is read and written back in two steps, and the log is loaded, appended to and put back in three; a
 publisher that finds no log appends to a list of its own. Redis does each in one step.
 */
module EventPublishers {
  import opened Wrappers
  import opened EventStream

  /** How far the event with a drawn number has got: `list` is the list its publisher appends to, `at` its place. */
  datatype Stage = Drawn | Loaded(list: nat) | Appended(list: nat, at: nat) | Stored(list: nat, at: nat) | Dropped

  datatype Job = Job(number: int, stage: Stage)

  /**
   `lists` are all list objects ever made and `held` the one the cache holds; `reading` are the numbers read from the
   counter and not yet written back; `jobs` has one entry for each number drawn.
   */
  datatype Shared = Shared(lists: seq<seq<Event>>, held: Option<nat>, reading: seq<int>, next: int, jobs: seq<Job>)

  datatype Move = Read | Write(who: nat)
                | Load(job: nat) | Append(job: nat, id: string, kind: Kind) | Put(job: nat) | Discard(job: nat)

  const IDLE: Shared := Shared([], None, [], 0, [])

  function Log(s: Shared): seq<Event> {
    if s.held.Some? && s.held.value < |s.lists| then s.lists[s.held.value] else []
  }

  function Without(s: seq<int>, i: nat): seq<int>
    requires i < |s|
  {
    s[..i] + s[i + 1..]
  }

  function StageOf(s: Shared, job: nat): Stage {
    if job < |s.jobs| then s.jobs[job].stage else Dropped
  }

  /** The job at stage `next`; the caller has seen that it exists. */
  function Advance(s: Shared, job: nat, next: Stage): Shared
    requires job < |s.jobs|
  {
    s.(jobs := s.jobs[job := s.jobs[job].(stage := next)])
  }

  /** A move that is not the publisher's next one changes nothing. */
  function Step(s: Shared, m: Move): Shared {
    match m
    case Read => s.(reading := s.reading + [s.next])
    case Write(who) =>
      if who < |s.reading| then
        var n := s.reading[who];
        s.(reading := Without(s.reading, who), next := n + 1, jobs := s.jobs + [Job(n, Drawn)])
      else s
    case Load(job) =>
      if !StageOf(s, job).Drawn? then s
      else if s.held.Some? then Advance(s, job, Loaded(s.held.value))
      else Advance(s, job, Loaded(|s.lists|)).(lists := s.lists + [[]])
    case Append(job, id, kind) =>
      if StageOf(s, job).Loaded? && StageOf(s, job).list < |s.lists| then
        var l := StageOf(s, job).list;
        Advance(s, job, Appended(l, |s.lists[l]|))
          .(lists := s.lists[l := s.lists[l] + [Event(id, s.jobs[job].number, kind)]])
      else s
    case Put(job) =>
      if StageOf(s, job).Appended? then
        var l := StageOf(s, job).list;
        Advance(s, job, Stored(l, StageOf(s, job).at)).(held := Some(l))
      else s
    case Discard(job) => if StageOf(s, job).Drawn? then Advance(s, job, Dropped) else s
  }

  function Interleave(moves: seq<Move>): Shared {
    if moves == [] then IDLE else Step(Interleave(moves[..|moves| - 1]), moves[|moves| - 1])
  }

  // ------------------------------------------------------------------------
  // Every number drawn is accounted for
  // ------------------------------------------------------------------------

  predicate HasPlace(g: Stage) {
    g.Appended? || g.Stored?
  }

  /** The event of a job is where its stage says. */
  ghost predicate InPlace(s: Shared, j: nat)
    requires j < |s.jobs|
  {
    var g := s.jobs[j].stage;
    && (g.Loaded? ==> g.list < |s.lists|)
    && (HasPlace(g) ==> g.list < |s.lists| && g.at < |s.lists[g.list]|
                        && s.lists[g.list][g.at].number == s.jobs[j].number)
  }

  ghost predicate SamePlace(g: Stage, h: Stage) {
    HasPlace(g) && HasPlace(h) && g.list == h.list && g.at == h.at
  }

  ghost predicate Apart(s: Shared, i: nat, j: nat)
    requires i < |s.jobs| && j < |s.jobs|
  {
    i != j ==> !SamePlace(s.jobs[i].stage, s.jobs[j].stage)
  }

  /** Some job put the event there. */
  ghost predicate Owned(s: Shared, l: nat, at: nat) {
    exists j :: 0 <= j < |s.jobs| && HasPlace(s.jobs[j].stage) && s.jobs[j].stage.list == l && s.jobs[j].stage.at == at
  }

  ghost predicate IsStoredIn(s: Shared, j: nat, l: nat)
    requires j < |s.jobs|
  {
    s.jobs[j].stage.Stored? && s.jobs[j].stage.list == l
  }

  /** The cache holds a list in which some event was stored, or nothing when none was. */
  ghost predicate HeldByStored(s: Shared) {
    && (s.held.Some? ==> s.held.value < |s.lists| && exists j :: 0 <= j < |s.jobs| && IsStoredIn(s, j, s.held.value))
    && (s.held.None? ==> forall j :: 0 <= j < |s.jobs| ==> !s.jobs[j].stage.Stored?)
  }

  /**
   Each number drawn is one job, dropped, not yet appended, or in a place of its own in some list; and nothing but the
   events of jobs is in any list.
   */
  ghost predicate Accounted(s: Shared) {
    && (forall j :: 0 <= j < |s.jobs| ==> InPlace(s, j))
    && (forall i, j :: 0 <= i < |s.jobs| && 0 <= j < |s.jobs| ==> Apart(s, i, j))
    && (forall l, at :: 0 <= l < |s.lists| && 0 <= at < |s.lists[l]| ==> Owned(s, l, at))
  }

  lemma WriteAccounts(s: Shared, who: nat)
    requires Accounted(s) && HeldByStored(s)
    ensures Accounted(Step(s, Write(who))) && HeldByStored(Step(s, Write(who)))
  {
    var t := Step(s, Write(who));
    forall j | 0 <= j < |t.jobs| ensures InPlace(t, j) {
      if j < |s.jobs| { assert InPlace(s, j); }
    }
    forall i, j | 0 <= i < |t.jobs| && 0 <= j < |t.jobs| ensures Apart(t, i, j) {
      if i < |s.jobs| && j < |s.jobs| { assert Apart(s, i, j); }
    }
    forall l, at | 0 <= l < |t.lists| && 0 <= at < |t.lists[l]| ensures Owned(t, l, at) {
      assert Owned(s, l, at);
      var j :| 0 <= j < |s.jobs| && HasPlace(s.jobs[j].stage) && s.jobs[j].stage.list == l && s.jobs[j].stage.at == at;
      assert t.jobs[j] == s.jobs[j];
    }
    if s.held.Some? {
      var j :| 0 <= j < |s.jobs| && IsStoredIn(s, j, s.held.value);
      assert IsStoredIn(t, j, s.held.value);
    }
  }

  /** A job that keeps its place, or has none before and after, disturbs nobody. */
  lemma RestageAccounts(s: Shared, t: Shared, job: nat)
    requires Accounted(s) && job < |s.jobs| == |t.jobs| && |s.lists| <= |t.lists|
    requires forall l :: 0 <= l < |s.lists| ==> t.lists[l] == s.lists[l]
    requires forall l :: |s.lists| <= l < |t.lists| ==> t.lists[l] == []
    requires forall j :: 0 <= j < |s.jobs| && j != job ==> t.jobs[j] == s.jobs[j]
    requires t.jobs[job].number == s.jobs[job].number
    requires var g, h := s.jobs[job].stage, t.jobs[job].stage;
             HasPlace(g) == HasPlace(h) && (HasPlace(g) ==> SamePlace(g, h)) && (h.Loaded? ==> h.list < |t.lists|)
    ensures Accounted(t)
  {
    forall j | 0 <= j < |t.jobs| ensures InPlace(t, j) {
      assert InPlace(s, j);
    }
    forall i, j | 0 <= i < |t.jobs| && 0 <= j < |t.jobs| ensures Apart(t, i, j) {
      assert Apart(s, i, j);
    }
    forall l, at | 0 <= l < |t.lists| && 0 <= at < |t.lists[l]| ensures Owned(t, l, at) {
      assert Owned(s, l, at);
      var j :| 0 <= j < |s.jobs| && HasPlace(s.jobs[j].stage) && s.jobs[j].stage.list == l && s.jobs[j].stage.at == at;
      assert HasPlace(t.jobs[j].stage) && t.jobs[j].stage.list == l && t.jobs[j].stage.at == at;
    }
  }

  lemma AppendAccounts(s: Shared, job: nat, id: string, kind: Kind)
    requires Accounted(s)
    ensures Accounted(Step(s, Append(job, id, kind)))
  {
    var t := Step(s, Append(job, id, kind));
    if StageOf(s, job).Loaded? {
      assert InPlace(s, job);
      var home := StageOf(s, job).list;
      var spot := |s.lists[home]|;
      forall j | 0 <= j < |t.jobs| ensures InPlace(t, j) {
        assert InPlace(s, j);
      }
      forall i, j | 0 <= i < |t.jobs| && 0 <= j < |t.jobs| ensures Apart(t, i, j) {
        assert Apart(s, i, j) && InPlace(s, i) && InPlace(s, j);
      }
      forall l, at | 0 <= l < |t.lists| && 0 <= at < |t.lists[l]| ensures Owned(t, l, at) {
        if l == home && at == spot {
          assert t.jobs[job].stage == Stage.Appended(l, at);
        } else {
          assert Owned(s, l, at);
          var j :| 0 <= j < |s.jobs| && HasPlace(s.jobs[j].stage) && s.jobs[j].stage.list == l
                   && s.jobs[j].stage.at == at;
          assert t.jobs[j] == s.jobs[j];
        }
      }
    }
  }

  lemma StepAccounts(s: Shared, m: Move)
    requires Accounted(s) && HeldByStored(s)
    ensures Accounted(Step(s, m))
  {
    var t := Step(s, m);
    if m.Write? {
      WriteAccounts(s, m.who);
    } else if m.Append? {
      AppendAccounts(s, m.job, m.id, m.kind);
    } else if m.Read? {
      ReadAccounts(s);
    } else if t != s {
      assert InPlace(s, m.job);
      RestageAccounts(s, t, m.job);
    }
  }

  lemma ReadAccounts(s: Shared)
    requires Accounted(s)
    ensures Accounted(Step(s, Read))
  {
    var t := Step(s, Read);
    forall j | 0 <= j < |t.jobs| ensures InPlace(t, j) { assert InPlace(s, j); }
    forall i, j | 0 <= i < |t.jobs| && 0 <= j < |t.jobs| ensures Apart(t, i, j) { assert Apart(s, i, j); }
    forall l, at | 0 <= l < |t.lists| && 0 <= at < |t.lists[l]| ensures Owned(t, l, at) {
      assert Owned(s, l, at);
    }
  }

  lemma StepHolds(s: Shared, m: Move)
    requires Accounted(s) && HeldByStored(s)
    ensures HeldByStored(Step(s, m))
  {
    var t := Step(s, m);
    if m.Put? && StageOf(s, m.job).Appended? {
      assert InPlace(s, m.job);
      assert IsStoredIn(t, m.job, t.held.value);
    } else if s.held.Some? {
      var j :| 0 <= j < |s.jobs| && IsStoredIn(s, j, s.held.value);
      assert IsStoredIn(t, j, t.held.value);
    }
  }

  lemma {:induction false} RunAccounts(moves: seq<Move>)
    ensures Accounted(Interleave(moves)) && HeldByStored(Interleave(moves))
  {
    if moves != [] {
      var rest, m := moves[..|moves| - 1], moves[|moves| - 1];
      RunAccounts(rest);
      StepAccounts(Interleave(rest), m);
      StepHolds(Interleave(rest), m);
    }
  }

  // ------------------------------------------------------------------------
  // Numbers drawn twice
  // ------------------------------------------------------------------------

  /** A publisher writes back a number although the counter has moved since it read it. */
  predicate IsStale(s: Shared, m: Move) {
    m.Write? && m.who < |s.reading| && s.reading[m.who] != s.next
  }

  predicate EverStale(moves: seq<Move>) {
    moves != [] &&
    (EverStale(moves[..|moves| - 1]) || IsStale(Interleave(moves[..|moves| - 1]), moves[|moves| - 1]))
  }

  ghost predicate Distinct(s: Shared) {
    forall i, j :: 0 <= i < j < |s.jobs| ==> s.jobs[i].number != s.jobs[j].number
  }

  /** Without stale writes the numbers drawn are 0, 1, 2 and so on, and nobody holds a number from the future. */
  ghost predicate Counting(s: Shared) {
    && s.next == |s.jobs| && (forall i :: 0 <= i < |s.jobs| ==> s.jobs[i].number == i)
    && forall i :: 0 <= i < |s.reading| ==> 0 <= s.reading[i] <= s.next
  }

  lemma StepKeepsNumbers(s: Shared, m: Move)
    ensures var t := Step(s, m);
            |s.jobs| <= |t.jobs| && forall j :: 0 <= j < |s.jobs| ==> t.jobs[j].number == s.jobs[j].number
    ensures !m.Write? ==> |Step(s, m).jobs| == |s.jobs| && Step(s, m).next == s.next
    ensures !m.Write? && !m.Read? ==> Step(s, m).reading == s.reading
  {}

  lemma StepCountsOn(s: Shared, m: Move)
    requires Counting(s)
    ensures !IsStale(s, m) ==> Counting(Step(s, m))
    ensures IsStale(s, m) ==> !Distinct(Step(s, m))
  {
    var t := Step(s, m);
    StepKeepsNumbers(s, m);
    if m.Write? && m.who < |s.reading| {
      var n := s.reading[m.who];
      if n != s.next { assert t.jobs[n].number == n == t.jobs[|s.jobs|].number; }
    }
  }

  lemma {:induction false} StaleExactly(moves: seq<Move>)
    ensures !EverStale(moves) ==> Counting(Interleave(moves))
    ensures EverStale(moves) ==> !Distinct(Interleave(moves))
  {
    if moves != [] {
      var rest, m := moves[..|moves| - 1], moves[|moves| - 1];
      var s := Interleave(rest);
      StaleExactly(rest);
      if EverStale(rest) {
        var i, j :| 0 <= i < j < |s.jobs| && s.jobs[i].number == s.jobs[j].number;
        StepKeepsNumbers(s, m);
        assert Step(s, m).jobs[i].number == Step(s, m).jobs[j].number;
      } else {
        StepCountsOn(s, m);
      }
    }
  }

  /** No number stands twice in a list. */
  ghost predicate NoRepeats(log: seq<Event>) {
    forall i, j :: 0 <= i < j < |log| ==> log[i].number != log[j].number
  }

  lemma DistinctJobsNoRepeats(s: Shared)
    requires Accounted(s) && Distinct(s)
    ensures NoRepeats(Log(s))
  {
    var log := Log(s);
    forall a, b | 0 <= a < b < |log| ensures log[a].number != log[b].number {
      var l := s.held.value;
      assert Owned(s, l, a) && Owned(s, l, b);
      var i :| 0 <= i < |s.jobs| && HasPlace(s.jobs[i].stage) && s.jobs[i].stage.list == l && s.jobs[i].stage.at == a;
      var j :| 0 <= j < |s.jobs| && HasPlace(s.jobs[j].stage) && s.jobs[j].stage.list == l && s.jobs[j].stage.at == b;
      assert InPlace(s, i) && InPlace(s, j);
    }
  }

  /**
   Over every interleaving the numbers drawn are all different if and only if no publisher wrote back a stale number;
   then no number is stored twice. In any case each number drawn has its own event, dropped, on its way or in a list.
   */
  lemma NumbersUniqueExactly(moves: seq<Move>)
    ensures Distinct(Interleave(moves)) <==> !EverStale(moves)
    ensures !EverStale(moves) ==> NoRepeats(Log(Interleave(moves)))
    ensures Accounted(Interleave(moves))
  {
    RunAccounts(moves);
    StaleExactly(moves);
    if !EverStale(moves) { DistinctJobsNoRepeats(Interleave(moves)); }
  }

  // ------------------------------------------------------------------------
  // Events lost with a list
  // ------------------------------------------------------------------------

  /** A publisher puts back a list although the cache holds another by now. */
  predicate Displaces(s: Shared, m: Move) {
    m.Put? && StageOf(s, m.job).Appended? && s.held.Some? && s.held.value != StageOf(s, m.job).list
  }

  predicate EverDisplaced(moves: seq<Move>) {
    moves != [] &&
    (EverDisplaced(moves[..|moves| - 1]) || Displaces(Interleave(moves[..|moves| - 1]), moves[|moves| - 1]))
  }

  /** The event is in the log a reader gets. */
  ghost predicate InLog(s: Shared, j: nat)
    requires j < |s.jobs|
  {
    var g := s.jobs[j].stage;
    && HasPlace(g) && s.held == Some(g.list) && g.at < |Log(s)|
    && Log(s)[g.at].number == s.jobs[j].number
  }

  /** No event is lost: each that was stored is in the log. */
  ghost predicate AllKept(s: Shared) {
    forall j :: 0 <= j < |s.jobs| && s.jobs[j].stage.Stored? ==> InLog(s, j)
  }

  /** Two events were stored in different lists, of which the cache holds at most one. */
  ghost predicate Torn(s: Shared, i: nat, j: nat)
    requires i < |s.jobs| && j < |s.jobs|
  {
    var g, h := s.jobs[i].stage, s.jobs[j].stage;
    g.Stored? && h.Stored? && g.list != h.list
  }

  ghost predicate IsTorn(s: Shared) {
    exists i, j :: 0 <= i < |s.jobs| && 0 <= j < |s.jobs| && Torn(s, i, j)
  }

  lemma StoredStays(s: Shared, m: Move, j: nat)
    requires j < |s.jobs| && s.jobs[j].stage.Stored?
    ensures j < |Step(s, m).jobs| && Step(s, m).jobs[j] == s.jobs[j]
  {}

  lemma TornStays(s: Shared, m: Move)
    requires IsTorn(s)
    ensures IsTorn(Step(s, m))
  {
    var i, j :| 0 <= i < |s.jobs| && 0 <= j < |s.jobs| && Torn(s, i, j);
    StoredStays(s, m, i);
    StoredStays(s, m, j);
    assert Torn(Step(s, m), i, j);
  }

  lemma DisplacingTears(s: Shared, m: Move)
    requires HeldByStored(s) && Displaces(s, m)
    ensures IsTorn(Step(s, m))
  {
    var j :| 0 <= j < |s.jobs| && IsStoredIn(s, j, s.held.value);
    StoredStays(s, m, j);
    assert Torn(Step(s, m), j, m.job);
  }

  /** Stored events are all in the list the cache holds. */
  ghost predicate OneList(s: Shared) {
    forall j :: 0 <= j < |s.jobs| && s.jobs[j].stage.Stored? ==> s.held == Some(s.jobs[j].stage.list)
  }

  lemma StepKeepsOneList(s: Shared, m: Move)
    requires OneList(s) && !Displaces(s, m)
    ensures OneList(Step(s, m))
  {
    var t := Step(s, m);
    forall j | 0 <= j < |t.jobs| && t.jobs[j].stage.Stored? ensures t.held == Some(t.jobs[j].stage.list) {
      if j < |s.jobs| && s.jobs[j].stage.Stored? { StoredStays(s, m, j); }
    }
  }

  lemma {:induction false} TornExactly(moves: seq<Move>)
    ensures !EverDisplaced(moves) ==> OneList(Interleave(moves))
    ensures EverDisplaced(moves) ==> IsTorn(Interleave(moves))
  {
    if moves != [] {
      var rest, m := moves[..|moves| - 1], moves[|moves| - 1];
      TornExactly(rest);
      if EverDisplaced(rest) {
        TornStays(Interleave(rest), m);
      } else if Displaces(Interleave(rest), m) {
        RunAccounts(rest);
        DisplacingTears(Interleave(rest), m);
      } else {
        StepKeepsOneList(Interleave(rest), m);
      }
    }
  }

  /**
   Over every interleaving each stored event is in the log if and only if no publisher put back a list while the cache
   held another; then every number drawn is in the log, on its way to it, or dropped.
   */
  lemma NoEventLostExactly(moves: seq<Move>)
    ensures AllKept(Interleave(moves)) <==> !EverDisplaced(moves)
  {
    var s := Interleave(moves);
    RunAccounts(moves);
    TornExactly(moves);
    if EverDisplaced(moves) {
      var i, j :| 0 <= i < |s.jobs| && 0 <= j < |s.jobs| && Torn(s, i, j);
      assert !(InLog(s, i) && InLog(s, j));
    } else {
      forall j | 0 <= j < |s.jobs| && s.jobs[j].stage.Stored? ensures InLog(s, j) {
        assert InPlace(s, j);
      }
    }
  }

  // ------------------------------------------------------------------------
  // Publishers that take turns
  // ------------------------------------------------------------------------

  predicate InFlight(g: Stage) {
    g.Loaded? || g.Appended?
  }

  ghost predicate NoneInFlight(s: Shared) {
    forall j :: 0 <= j < |s.jobs| ==> !InFlight(s.jobs[j].stage)
  }

  /** Nobody reads the counter while another is about to write it, nor loads the log while another is to put it back. */
  ghost predicate TakesTurn(s: Shared, m: Move) {
    (m.Read? ==> s.reading == []) && (m.Load? ==> NoneInFlight(s))
  }

  /** Redis, whose INCR and RPUSH are single steps, or a single publisher. */
  ghost predicate OneAtATime(moves: seq<Move>) {
    moves == [] ||
    (OneAtATime(moves[..|moves| - 1]) && TakesTurn(Interleave(moves[..|moves| - 1]), moves[|moves| - 1]))
  }

  ghost predicate OnlyInFlight(s: Shared, i: nat, j: nat)
    requires i < |s.jobs| && j < |s.jobs|
  {
    InFlight(s.jobs[i].stage) && InFlight(s.jobs[j].stage) ==> i == j
  }

  /** At most one log is loaded, and it is the one held. */
  ghost predicate InTurn(s: Shared) {
    && (forall i, j :: 0 <= i < |s.jobs| && 0 <= j < |s.jobs| ==> OnlyInFlight(s, i, j))
    && (forall j :: 0 <= j < |s.jobs| && InFlight(s.jobs[j].stage) && s.held.Some? ==>
          s.jobs[j].stage.list == s.held.value)
  }

  lemma StepInTurn(s: Shared, m: Move)
    requires InTurn(s) && TakesTurn(s, m)
    ensures InTurn(Step(s, m)) && !Displaces(s, m)
  {
    var t := Step(s, m);
    forall i, j | 0 <= i < |t.jobs| && 0 <= j < |t.jobs| ensures OnlyInFlight(t, i, j) {
      if i < |s.jobs| && j < |s.jobs| { assert OnlyInFlight(s, i, j); }
    }
    forall j | 0 <= j < |t.jobs| && InFlight(t.jobs[j].stage) && t.held.Some?
      ensures t.jobs[j].stage.list == t.held.value
    {
      if m.Put? && StageOf(s, m.job).Appended? { assert OnlyInFlight(s, j, m.job); }
    }
  }

  lemma {:induction false} TurnsAreSafe(moves: seq<Move>)
    requires OneAtATime(moves)
    ensures !EverStale(moves) && !EverDisplaced(moves)
    ensures var s := Interleave(moves); InTurn(s) && (s.reading == [] || s.reading == [s.next])
  {
    if moves != [] {
      var rest, m := moves[..|moves| - 1], moves[|moves| - 1];
      TurnsAreSafe(rest);
      StepInTurn(Interleave(rest), m);
      if !m.Write? { StepKeepsNumbers(Interleave(rest), m); }
    }
  }

  // ------------------------------------------------------------------------
  // Runs that go wrong in memory
  // ------------------------------------------------------------------------

  lemma Next(moves: seq<Move>, m: Move)
    ensures Interleave(moves + [m]) == Step(Interleave(moves), m)
  {
    assert (moves + [m])[..|moves|] == moves;
  }

  lemma NextIs(moves: seq<Move>, m: Move, all: seq<Move>)
    requires all == moves + [m]
    ensures Interleave(all) == Step(Interleave(moves), m)
  {
    Next(moves, m);
  }

  lemma TwoNext(moves: seq<Move>, m1: Move, m2: Move)
    ensures Interleave(moves + [m1, m2]) == Step(Step(Interleave(moves), m1), m2)
  {
    var one, two := moves + [m1], moves + [m1, m2];
    assert two == one + [m2];
    NextIs(moves, m1, one);
    NextIs(one, m2, two);
  }

  lemma ThreeNext(moves: seq<Move>, m1: Move, m2: Move, m3: Move)
    ensures Interleave(moves + [m1, m2, m3]) == Step(Step(Step(Interleave(moves), m1), m2), m3)
  {
    var two, three := moves + [m1, m2], moves + [m1, m2, m3];
    assert three == two + [m3];
    TwoNext(moves, m1, m2);
    NextIs(two, m3, three);
  }

  /** The three steps of an append that nobody interrupts. */
  function WithStored(s: Shared, job: nat, e: Event): Shared
    requires job < |s.jobs|
  {
    var l := if s.held.Some? then s.held.value else |s.lists|;
    var lists := if l < |s.lists| then s.lists[l := s.lists[l] + [e]] else s.lists + [[e]];
    Shared(lists, Some(l), s.reading, s.next, s.jobs[job := Job(s.jobs[job].number, Stored(l, |Log(s)|))])
  }

  lemma StoreSteps(s: Shared, job: nat, id: string, kind: Kind)
    requires job < |s.jobs| && s.jobs[job].stage.Drawn? && (s.held.Some? ==> s.held.value < |s.lists|)
    ensures Step(Step(Step(s, Load(job)), Append(job, id, kind)), Put(job))
         == WithStored(s, job, Event(id, s.jobs[job].number, kind))
  {
    var l := if s.held.Some? then s.held.value else |s.lists|;
    var n := s.jobs[job].number;
    var s1 := Step(s, Load(job));
    assert s1.jobs[job] == Job(n, Loaded(l)) && s1.lists[l] == Log(s);
    var s2 := Step(s1, Append(job, id, kind));
    assert s2.jobs[job] == Job(n, Stage.Appended(l, |Log(s)|));
    assert s2.jobs == s.jobs[job := Job(n, Stage.Appended(l, |Log(s)|))];
    assert s2.lists[l] == Log(s) + [Event(id, n, kind)];
    assert s.held.None? ==> Log(s) + [Event(id, n, kind)] == [Event(id, n, kind)];
    var t, want := Step(s2, Put(job)), WithStored(s, job, Event(id, n, kind));
    assert t.jobs == want.jobs;
    assert t.lists == want.lists;
  }

  lemma TwoReads()
    ensures Interleave([Read, Read]) == Shared([], None, [0, 0], 0, [])
  {
    assert [] + [Read, Read] == [Read, Read];
    TwoNext([], Read, Read);
  }

  lemma TwoWrites()
    ensures Step(Step(Shared([], None, [0, 0], 0, []), Write(0)), Write(0))
         == Shared([], None, [], 1, [Job(0, Drawn), Job(0, Drawn)])
  {
    assert Without([0, 0], 0) == [0] && Without([0], 0) == [];
  }

  /** Two publishers read the counter before either writes it back. */
  lemma TwoDraws()
    ensures Interleave([Read, Read, Write(0), Write(0)]) == Shared([], None, [], 1, [Job(0, Drawn), Job(0, Drawn)])
  {
    TwoReads();
    TwoWrites();
    TwoNext([Read, Read], Write(0), Write(0));
    assert [Read, Read] + [Write(0), Write(0)] == [Read, Read, Write(0), Write(0)];
  }

  lemma FirstOfTwo(id: string, kind: Kind)
    ensures Interleave([Read, Read, Write(0), Write(0)] + [Load(0), Append(0, id, kind), Put(0)])
         == Shared([[Event(id, 0, kind)]], Some(0), [], 1, [Job(0, Stored(0, 0)), Job(0, Drawn)])
  {
    var draws := [Read, Read, Write(0), Write(0)];
    TwoDraws();
    ThreeNext(draws, Load(0), Append(0, id, kind), Put(0));
    StoreSteps(Interleave(draws), 0, id, kind);
  }

  /** Then both events are stored under number 0. */
  lemma MemoryCounterRepeats(id1: string, id2: string, kind: Kind)
    ensures var moves := [Read, Read, Write(0), Write(0)] + [Load(0), Append(0, id1, kind), Put(0)]
                         + [Load(1), Append(1, id2, kind), Put(1)];
            Log(Interleave(moves)) == [Event(id1, 0, kind), Event(id2, 0, kind)]
  {
    var first := [Read, Read, Write(0), Write(0)] + [Load(0), Append(0, id1, kind), Put(0)];
    var s := Interleave(first);
    FirstOfTwo(id1, kind);
    ThreeNext(first, Load(1), Append(1, id2, kind), Put(1));
    StoreSteps(s, 1, id2, kind);
    StoreAppends(s, 1, Event(id2, 0, kind));
  }

  lemma StoreAppends(s: Shared, job: nat, e: Event)
    requires job < |s.jobs| && (s.held.Some? ==> s.held.value < |s.lists|)
    ensures Log(WithStored(s, job, e)) == Log(s) + [e]
  {}

  /** Two publishers load the log of a new run before either puts one back. */
  lemma TwoLoads()
    ensures Interleave([Read, Write(0)] + [Read, Write(0)] + [Load(0), Load(1)])
         == Shared([[], []], None, [], 2, [Job(0, Loaded(0)), Job(1, Loaded(1))])
  {
    var m1 := [Read, Write(0)];
    var m2 := m1 + [Read, Write(0)];
    TwoNext([], Read, Write(0));
    assert [] + m1 == m1;
    DrawSteps(IDLE);
    TwoNext(m1, Read, Write(0));
    DrawSteps(Interleave(m1));
    assert Interleave(m2) == Shared([], None, [], 2, [Job(0, Drawn), Job(1, Drawn)]);
    TwoNext(m2, Load(0), Load(1));
  }

  /** An append and a put of a list nobody else has. */
  lemma PutsOwn(s: Shared, job: nat, id: string, kind: Kind)
    requires job < |s.jobs| && s.jobs[job].stage.Loaded? && s.jobs[job].stage.list < |s.lists|
    requires s.lists[s.jobs[job].stage.list] == []
    ensures var n, l := s.jobs[job].number, s.jobs[job].stage.list;
            var t := Step(Step(s, Append(job, id, kind)), Put(job));
            && t.lists == s.lists[l := [Event(id, n, kind)]] && t.held == Some(l)
            && t.jobs == s.jobs[job := Job(n, Stored(l, 0))]
  {
    var n, l := s.jobs[job].number, s.jobs[job].stage.list;
    assert s.lists[l] + [Event(id, n, kind)] == [Event(id, n, kind)];
    var s1 := Step(s, Append(job, id, kind));
    assert s1.jobs[job] == Job(n, Stage.Appended(l, 0));
    assert s1.jobs[job := Job(n, Stored(l, 0))] == s.jobs[job := Job(n, Stored(l, 0))];
  }

  /** Then the first event is stored and lost. */
  lemma MemoryLogLosesEvent(id1: string, id2: string, kind: Kind)
    ensures var moves := [Read, Write(0)] + [Read, Write(0)] + [Load(0), Load(1)]
                         + [Append(0, id1, kind), Put(0)] + [Append(1, id2, kind), Put(1)];
            var s := Interleave(moves);
            && s.jobs == [Job(0, Stored(0, 0)), Job(1, Stored(1, 0))]
            && s.lists == [[Event(id1, 0, kind)], [Event(id2, 1, kind)]]
            && Log(s) == [Event(id2, 1, kind)] && !EverStale(moves) && EverDisplaced(moves)
  {
    var m3 := [Read, Write(0)] + [Read, Write(0)] + [Load(0), Load(1)];
    var m4 := m3 + [Append(0, id1, kind), Put(0)];
    var m5 := m4 + [Append(1, id2, kind), Put(1)];
    var s3, s4, s5 := Interleave(m3), Interleave(m4), Interleave(m5);
    TwoLoads();
    TwoNext(m3, Append(0, id1, kind), Put(0));
    PutsOwn(s3, 0, id1, kind);
    TwoNext(m4, Append(1, id2, kind), Put(1));
    PutsOwn(s4, 1, id2, kind);
    assert s5.jobs == [Job(0, Stored(0, 0)), Job(1, Stored(1, 0))];
    assert s5.lists == [[Event(id1, 0, kind)], [Event(id2, 1, kind)]];
    NumbersUniqueExactly(m5);
    NoEventLostExactly(m5);
    assert !InLog(s5, 0);
  }

  // ------------------------------------------------------------------------
  // One publisher after the other is the sequential log
  // ------------------------------------------------------------------------

  /** All moves of the publisher that draws the `k`-th number. */
  function Turn(d: Draft, k: nat): seq<Move> {
    [Read, Write(0)] + if d.wellFormed then [Load(k), Append(k, IdOf(d), d.kind), Put(k)] else [Discard(k)]
  }

  function Turns(drafts: seq<Draft>): seq<Move> {
    if drafts == [] then [] else Turns(drafts[..|drafts| - 1]) + Turn(drafts[|drafts| - 1], |drafts| - 1)
  }

  /** Nobody is at work; the log and the counter are those of a sequential run. */
  ghost predicate Quiet(s: Shared, run: RunState) {
    && s.reading == [] && s.next == |s.jobs| == run.next && Log(s) == run.log
    && (forall j :: 0 <= j < |s.jobs| ==> s.jobs[j].stage.Stored? || s.jobs[j].stage.Dropped?)
    && (s.held.Some? ==> s.held.value < |s.lists|)
  }

  lemma DrawSteps(s: Shared)
    requires s.reading == []
    ensures Step(Step(s, Read), Write(0)) == s.(next := s.next + 1, jobs := s.jobs + [Job(s.next, Drawn)])
  {
    assert Without([s.next], 0) == [];
  }

  function AfterDraw(s: Shared): Shared {
    s.(next := s.next + 1, jobs := s.jobs + [Job(s.next, Drawn)])
  }

  lemma QuietStored(s: Shared, run: RunState, e: Event)
    requires Quiet(s, run)
    ensures Quiet(WithStored(AfterDraw(s), |s.jobs|, e), RunState(run.log + [e], run.next + 1))
  {
    assert Log(AfterDraw(s)) == run.log;
    StoreAppends(AfterDraw(s), |s.jobs|, e);
  }

  lemma QuietDropped(s: Shared, run: RunState)
    requires Quiet(s, run)
    ensures Quiet(Step(AfterDraw(s), Discard(|s.jobs|)), RunState(run.log, run.next + 1))
  {}

  lemma TurnPublishes(moves: seq<Move>, run: RunState, d: Draft, k: nat)
    requires Quiet(Interleave(moves), run) && k == run.next && d.number.None?
    ensures Quiet(Interleave(moves + Turn(d, k)), Published(run, d))
  {
    var s := Interleave(moves);
    var m2 := moves + [Read, Write(0)];
    TwoNext(moves, Read, Write(0));
    DrawSteps(s);
    assert Interleave(m2) == AfterDraw(s);
    if d.wellFormed {
      TurnStores(s, m2, run, d, k);
      assert m2 + [Load(k), Append(k, IdOf(d), d.kind), Put(k)] == moves + Turn(d, k);
    } else {
      Next(m2, Discard(k));
      QuietDropped(s, run);
      assert m2 + [Discard(k)] == moves + Turn(d, k);
    }
  }

  lemma TurnStores(s: Shared, moves: seq<Move>, run: RunState, d: Draft, k: nat)
    requires Quiet(s, run) && k == run.next && d.number.None? && d.wellFormed && Interleave(moves) == AfterDraw(s)
    ensures Quiet(Interleave(moves + [Load(k), Append(k, IdOf(d), d.kind), Put(k)]), Published(run, d))
  {
    ThreeNext(moves, Load(k), Append(k, IdOf(d), d.kind), Put(k));
    StoreSteps(AfterDraw(s), k, IdOf(d), d.kind);
    QuietStored(s, run, Stamp(d, k));
  }

  /** Publishers that take whole turns leave exactly the log and the counter of the sequential run. */
  lemma {:induction false} TurnsAreReplay(drafts: seq<Draft>)
    requires Unnumbered(drafts)
    ensures Quiet(Interleave(Turns(drafts)), Replay(drafts))
  {
    if drafts != [] {
      var n := |drafts| - 1;
      TurnsAreReplay(drafts[..n]);
      TurnPublishes(Turns(drafts[..n]), Replay(drafts[..n]), drafts[n], n);
    }
  }
}
