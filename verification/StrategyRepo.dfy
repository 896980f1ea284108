/**
 The strategy repository (app/ft_strategy/supabase_repo.py) as a state machine
 over its tables, each method one atomic step, with the final-report checks of
 app/ft_strategy/report_validator.py.
 */
module StrategyRepo {
  import opened Wrappers

  datatype Strategy = Strategy(status: string, version: int, lastEvent: string, stagnation: int)

  datatype Report = Report(strategyId: string, version: int, final: bool, finding: Option<string>,
                           publishedAt: Option<int>, body: string)

  datatype Event = Event(strategyId: string, kind: string)

  /** The tables; `trigger` says whether the SQLite check on reports is installed. */
  datatype Tables = Tables(strategies: map<string, Strategy>, events: seq<Event>, reports: map<string, Report>,
                           trigger: bool)

  datatype Error = StrategyNotFound | ReportNotFound | ReportFinalLocked | ReportInvalidFinal | UnknownEvent | Integrity

  datatype Reply =
    Done | TheStrategy(strategy: Strategy) | TheReport(report: Report) | EventId(id: int) | Failed(error: Error)

  datatype Op =
    | CreateStrategy(id: string)
    | Refine(id: string)
    | UpdateStatus(id: string, status: string)
    | CreateReport(reportId: string, id: string, version: int, finding: Option<string>, body: string)
    | PublishReport(reportId: string, text: string, now: int)
    | RecordEvent(id: string, kind: string)
    | ResetStagnation(id: string)

  predicate Clearing(kind: string) {
    kind == "evolve" || kind == "fork" || kind == "kill"
  }

  predicate KnownEvent(kind: string) {
    Clearing(kind) || kind == "stable" || kind == "create" || kind == "shadow_start" || kind == "shadow_end"
  }

  // ------------------------------------------------------------------------
  // Checks on a finding
  // ------------------------------------------------------------------------

  predicate Space(c: char) {
    '\t' <= c <= '\r' || c == ' ' || '\U{1c}' <= c <= '\U{1f}'
  }

  predicate Blank(s: string) {
    forall i :: 0 <= i < |s| ==> Space(s[i])
  }

  function Upper(c: char): char {
    if 'a' <= c <= 'z' then c - 'a' + 'A' else c
  }

  /** A case-sensitive and, as SQLite's LIKE, a case-insensitive reading of "starts with TODO:". */
  predicate IsTodo(s: string) {
    "TODO:" <= s
  }

  predicate LooksTodo(s: string) {
    |s| >= 5 && forall i :: 0 <= i < 5 ==> Upper(s[i]) == "TODO:"[i]
  }

  /** `_check_reserved_finding` followed by `validate_report_final`. */
  predicate CodeAccepts(finding: string) {
    finding != "" && !IsTodo(finding) && !Blank(finding)
  }

  predicate PostgresAccepts(finding: string) {
    !IsTodo(finding)
  }

  predicate SqliteAccepts(finding: string) {
    finding != "" && !LooksTodo(finding)
  }

  // ------------------------------------------------------------------------
  // Steps
  // ------------------------------------------------------------------------

  datatype Outcome = Outcome(tables: Tables, reply: Reply)

  function Fail(t: Tables, e: Error): Outcome {
    Outcome(t, Failed(e))
  }

  function Counted(s: Strategy, kind: string): Strategy {
    s.(lastEvent := kind,
       stagnation := if kind == "stable" then s.stagnation + 1 else if Clearing(kind) then 0 else s.stagnation)
  }

  function Step(t: Tables, op: Op): Outcome {
    match op
    case CreateStrategy(id) =>
      if id in t.strategies then Fail(t, Integrity)
      else
        var s := Strategy("draft", 1, "create", 0);
        Outcome(t.(strategies := t.strategies[id := s]), TheStrategy(s))
    case Refine(id) =>
      if id !in t.strategies then Fail(t, StrategyNotFound)
      else
        var s := t.strategies[id].(version := t.strategies[id].version + 1, status := "refining");
        Outcome(t.(strategies := t.strategies[id := s]), TheStrategy(s))
    case UpdateStatus(id, status) =>
      if id !in t.strategies then Outcome(t, Done)
      else Outcome(t.(strategies := t.strategies[id := t.strategies[id].(status := status)]), Done)
    case CreateReport(reportId, id, version, finding, body) =>
      if reportId in t.reports || id !in t.strategies then Fail(t, Integrity)
      else
        var r := Report(id, version, false, finding, None, body);
        Outcome(t.(reports := t.reports[reportId := r]), TheReport(r))
    case PublishReport(reportId, text, now) =>
      if reportId !in t.reports then Fail(t, ReportNotFound)
      else if t.reports[reportId].final then Fail(t, ReportFinalLocked)
      else if !CodeAccepts(text) then Fail(t, ReportInvalidFinal)
      else if t.trigger && !SqliteAccepts(text) then Fail(t, Integrity)
      else
        var r := t.reports[reportId].(final := true, finding := Some(text), publishedAt := Some(now));
        Outcome(t.(reports := t.reports[reportId := r]), TheReport(r))
    case RecordEvent(id, kind) =>
      if !KnownEvent(kind) then Fail(t, UnknownEvent)
      else if id !in t.strategies then Fail(t, Integrity)
      else
        Outcome(t.(strategies := t.strategies[id := Counted(t.strategies[id], kind)],
                   events := t.events + [Event(id, kind)]),
                EventId(|t.events| + 1))
    case ResetStagnation(id) =>
      if id !in t.strategies then Outcome(t, Done)
      else Outcome(t.(strategies := t.strategies[id := t.strategies[id].(stagnation := 0)]), Done)
  }

  /** The kinds of a strategy's events, oldest first. */
  function KindsOf(events: seq<Event>, id: string): seq<string> {
    if events == [] then []
    else
      var n := |events| - 1;
      if events[n].strategyId == id then KindsOf(events[..n], id) + [events[n].kind] else KindsOf(events[..n], id)
  }

  /** The run of stable events at the end. */
  function RecentStable(kinds: seq<string>): nat {
    if kinds == [] || kinds[|kinds| - 1] != "stable" then 0 else RecentStable(kinds[..|kinds| - 1]) + 1
  }

  class FtStrategyRepo {
    var strategies: map<string, Strategy>
    var events: seq<Event>
    var reports: map<string, Report>
    const trigger: bool

    constructor (trigger: bool)
      ensures State() == Tables(map[], [], map[], trigger)
    {
      strategies, events, reports := map[], [], map[];
      this.trigger := trigger;
    }

    function State(): Tables
      reads this
    {
      Tables(strategies, events, reports, trigger)
    }

    method Create(id: string) returns (reply: Reply)
      modifies this
      ensures Outcome(State(), reply) == Step(old(State()), CreateStrategy(id))
    {
      if id in strategies { return Failed(Integrity); }
      strategies := strategies[id := Strategy("draft", 1, "create", 0)];
      return TheStrategy(strategies[id]);
    }

    method Refine(id: string) returns (reply: Reply)
      modifies this
      ensures Outcome(State(), reply) == Step(old(State()), Op.Refine(id))
    {
      if id !in strategies { return Failed(StrategyNotFound); }
      var row := strategies[id];
      strategies := strategies[id := row.(version := row.version + 1, status := "refining")];
      return TheStrategy(strategies[id]);
    }

    method UpdateStatus(id: string, status: string) returns (reply: Reply)
      modifies this
      ensures Outcome(State(), reply) == Step(old(State()), Op.UpdateStatus(id, status))
    {
      if id in strategies { strategies := strategies[id := strategies[id].(status := status)]; }
      return Done;
    }

    method CreateReport(reportId: string, id: string, version: int, finding: Option<string>, body: string)
      returns (reply: Reply)
      modifies this
      ensures Outcome(State(), reply) == Step(old(State()), Op.CreateReport(reportId, id, version, finding, body))
    {
      if reportId in reports || id !in strategies { return Failed(Integrity); }
      reports := reports[reportId := Report(id, version, false, finding, None, body)];
      return TheReport(reports[reportId]);
    }

    method PublishReport(reportId: string, text: string, now: int) returns (reply: Reply)
      modifies this
      ensures Outcome(State(), reply) == Step(old(State()), Op.PublishReport(reportId, text, now))
    {
      if reportId !in reports { return Failed(ReportNotFound); }
      if reports[reportId].final { return Failed(ReportFinalLocked); }
      if text == "" || IsTodo(text) { return Failed(ReportInvalidFinal); }
      if Blank(text) { return Failed(ReportInvalidFinal); }
      if trigger && !SqliteAccepts(text) { return Failed(Integrity); }
      var row := reports[reportId];
      reports := reports[reportId := row.(final := true, finding := Some(text), publishedAt := Some(now))];
      return TheReport(reports[reportId]);
    }

    /** The insert, then up to two updates of the strategy's row. */
    method RecordEvent(id: string, kind: string) returns (reply: Reply)
      modifies this
      ensures Outcome(State(), reply) == Step(old(State()), Op.RecordEvent(id, kind))
    {
      if !KnownEvent(kind) { return Failed(UnknownEvent); }
      if id !in strategies { return Failed(Integrity); }
      events := events + [Event(id, kind)];
      strategies := strategies[id := strategies[id].(lastEvent := kind)];
      if kind == "stable" {
        strategies := strategies[id := strategies[id].(stagnation := strategies[id].stagnation + 1)];
      } else if kind == "evolve" || kind == "fork" || kind == "kill" {
        strategies := strategies[id := strategies[id].(stagnation := 0)];
      }
      return EventId(|events|);
    }

    method ResetStagnation(id: string) returns (reply: Reply)
      modifies this
      ensures Outcome(State(), reply) == Step(old(State()), Op.ResetStagnation(id))
    {
      if id in strategies { strategies := strategies[id := strategies[id].(stagnation := 0)]; }
      return Done;
    }

    /** Reads the strategy's events newest first and stops at the first that is not stable. */
    method RecentStableCount(id: string) returns (count: nat)
      ensures count == RecentStable(KindsOf(events, id))
    {
      count := 0;
      var i := |events|;
      assert events[..i] == events;
      while i > 0
        invariant 0 <= i <= |events|
        invariant RecentStable(KindsOf(events, id)) == count + RecentStable(KindsOf(events[..i], id))
      {
        i := i - 1;
        assert events[..i + 1][..i] == events[..i];
        if events[i].strategyId == id {
          if events[i].kind != "stable" { return; }
          count := count + 1;
        }
      }
    }
  }

  // ------------------------------------------------------------------------
  // Runs
  // ------------------------------------------------------------------------

  function Run(ops: seq<Op>, trigger: bool): Tables {
    if ops == [] then Tables(map[], [], map[], trigger)
    else Step(Run(ops[..|ops| - 1], trigger), ops[|ops| - 1]).tables
  }

  /** What bears on one strategy's counter: its events, and the resets that leave no event. */
  datatype Mark = Logged(kind: string) | Reset

  /** The mark an operation leaves on a strategy's trail, if any. */
  function MarkOf(t: Tables, op: Op, id: string): seq<Mark> {
    if !op.RecordEvent? && !op.ResetStagnation? then []
    else if op.id != id || id !in t.strategies then []
    else if op.ResetStagnation? then [Reset]
    else if KnownEvent(op.kind) then [Logged(op.kind)]
    else []
  }

  function Trail(ops: seq<Op>, trigger: bool, id: string): seq<Mark> {
    if ops == [] then []
    else
      var rest := ops[..|ops| - 1];
      Trail(rest, trigger, id) + MarkOf(Run(rest, trigger), ops[|ops| - 1], id)
  }

  predicate Clears(m: Mark) {
    m.Reset? || Clearing(m.kind)
  }

  predicate IsStable(m: Mark) {
    m == Logged("stable")
  }

  /** Stable events since the last evolve, fork, kill or reset. */
  function StableSince(trail: seq<Mark>): nat {
    if trail == [] then 0
    else
      var n := |trail| - 1;
      if Clears(trail[n]) then 0 else StableSince(trail[..n]) + (if IsStable(trail[n]) then 1 else 0)
  }

  /** The events table does not see resets. */
  function Kinds(trail: seq<Mark>): seq<string> {
    if trail == [] then []
    else
      var n := |trail| - 1;
      if trail[n].Logged? then Kinds(trail[..n]) + [trail[n].kind] else Kinds(trail[..n])
  }

  /** The counter is the stable events since the last clearing, and the table of events is the trail without resets. */
  ghost predicate Counts(t: Tables, id: string, trail: seq<Mark>) {
    && KindsOf(t.events, id) == Kinds(trail)
    && (if id in t.strategies then t.strategies[id].stagnation == StableSince(trail) else trail == [])
  }

  lemma MarkNext(trail: seq<Mark>, m: Mark)
    ensures StableSince(trail + [m])
         == if Clears(m) then 0 else if IsStable(m) then StableSince(trail) + 1 else StableSince(trail)
    ensures Kinds(trail + [m]) == if m.Logged? then Kinds(trail) + [m.kind] else Kinds(trail)
  {
    assert (trail + [m])[..|trail|] == trail;
  }

  lemma EventNext(events: seq<Event>, e: Event, id: string)
    ensures KindsOf(events + [e], id)
         == if e.strategyId == id then KindsOf(events, id) + [e.kind] else KindsOf(events, id)
  {
    assert (events + [e])[..|events|] == events;
  }

  lemma RecordCounts(t: Tables, op: Op, id: string, trail: seq<Mark>)
    requires Counts(t, id, trail) && op.RecordEvent?
    ensures Counts(Step(t, op).tables, id, trail + MarkOf(t, op, id))
  {
    if KnownEvent(op.kind) && op.id in t.strategies {
      EventNext(t.events, Event(op.id, op.kind), id);
      if op.id == id { MarkNext(trail, Logged(op.kind)); }
    }
    assert trail + [] == trail;
  }

  lemma ResetCounts(t: Tables, op: Op, id: string, trail: seq<Mark>)
    requires Counts(t, id, trail) && op.ResetStagnation?
    ensures Counts(Step(t, op).tables, id, trail + MarkOf(t, op, id))
  {
    assert trail + [] == trail;
    MarkNext(trail, Reset);
  }

  lemma StepCounts(t: Tables, op: Op, id: string, trail: seq<Mark>)
    requires Counts(t, id, trail)
    ensures Counts(Step(t, op).tables, id, trail + MarkOf(t, op, id))
  {
    if op.RecordEvent? {
      RecordCounts(t, op, id, trail);
    } else if op.ResetStagnation? {
      ResetCounts(t, op, id, trail);
    } else {
      assert trail + [] == trail;
    }
  }

  lemma {:induction false} StagnationLaw(ops: seq<Op>, trigger: bool, id: string)
    ensures Counts(Run(ops, trigger), id, Trail(ops, trigger, id))
  {
    if ops != [] {
      var rest := ops[..|ops| - 1];
      StagnationLaw(rest, trigger, id);
      StepCounts(Run(rest, trigger), ops[|ops| - 1], id, Trail(rest, trigger, id));
    }
  }

  /** A stable event that nothing has cleared since. */
  ghost predicate Open(trail: seq<Mark>, i: int) {
    0 <= i < |trail| && IsStable(trail[i]) && forall k :: i <= k < |trail| ==> !Clears(trail[k])
  }

  /** A stable event followed by nothing but stable events and resets. */
  ghost predicate Streak(trail: seq<Mark>, i: int) {
    0 <= i < |trail| && IsStable(trail[i]) && forall k :: i <= k < |trail| ==> IsStable(trail[k]) || trail[k].Reset?
  }

  /** A create or shadow event after an open stable one. */
  ghost predicate Interposes(trail: seq<Mark>, i: int, j: int) {
    Open(trail, i) && i < j < |trail| && !IsStable(trail[j])
  }

  /** A reset within the streak at the end. */
  ghost predicate Hides(trail: seq<Mark>, i: int, j: int) {
    Streak(trail, i) && i < j < |trail| && trail[j].Reset?
  }

  ghost predicate Interposed(trail: seq<Mark>) {
    exists i, j :: Interposes(trail, i, j)
  }

  ghost predicate Hidden(trail: seq<Mark>) {
    exists i, j :: Hides(trail, i, j)
  }

  lemma Shorten(trail: seq<Mark>, i: int)
    requires 0 <= i < |trail| - 1
    ensures var n := |trail| - 1;
            && (Open(trail, i) <==> Open(trail[..n], i) && !Clears(trail[n]))
            && (Streak(trail, i) <==> Streak(trail[..n], i) && (IsStable(trail[n]) || trail[n].Reset?))
  {
    var n := |trail| - 1;
    assert trail[..n][i] == trail[i];
    if Open(trail[..n], i) && !Clears(trail[n]) {
      forall k | i <= k < |trail| ensures !Clears(trail[k]) {
        if k < n { assert !Clears(trail[..n][k]); }
      }
    }
    if Streak(trail[..n], i) && (IsStable(trail[n]) || trail[n].Reset?) {
      forall k | i <= k < |trail| ensures IsStable(trail[k]) || trail[k].Reset? {
        if k < n { assert IsStable(trail[..n][k]) || trail[..n][k].Reset?; }
      }
    }
  }

  lemma {:induction false} CountersPositive(trail: seq<Mark>)
    ensures StableSince(trail) > 0 ==> exists i :: Open(trail, i)
    ensures RecentStable(Kinds(trail)) > 0 ==> exists i :: Streak(trail, i)
  {
    if trail != [] {
      var n := |trail| - 1;
      CountersPositive(trail[..n]);
      if IsStable(trail[n]) {
        assert Open(trail, n) && Streak(trail, n);
      } else {
        if StableSince(trail) > 0 {
          var i :| Open(trail[..n], i);
          Shorten(trail, i);
        }
        if RecentStable(Kinds(trail)) > 0 {
          var i :| Streak(trail[..n], i);
          Shorten(trail, i);
        }
      }
    }
  }

  lemma {:induction false} WitnessesCount(trail: seq<Mark>, i: int)
    ensures Open(trail, i) ==> StableSince(trail) > 0
    ensures Streak(trail, i) ==> RecentStable(Kinds(trail)) > 0
  {
    var n := |trail| - 1;
    if 0 <= i < n {
      Shorten(trail, i);
      WitnessesCount(trail[..n], i);
    }
  }

  lemma ShortenPairs(trail: seq<Mark>)
    requires trail != [] && IsStable(trail[|trail| - 1])
    ensures Interposed(trail) <==> Interposed(trail[..|trail| - 1])
    ensures Hidden(trail) <==> Hidden(trail[..|trail| - 1])
  {
    var n := |trail| - 1;
    if i, j :| Interposes(trail, i, j) { Shorten(trail, i); assert Interposes(trail[..n], i, j); }
    if i, j :| Interposes(trail[..n], i, j) { Shorten(trail, i); assert Interposes(trail, i, j); }
    if i, j :| Hides(trail, i, j) { Shorten(trail, i); assert Hides(trail[..n], i, j); }
    if i, j :| Hides(trail[..n], i, j) { Shorten(trail, i); assert Hides(trail, i, j); }
  }

  /** The last mark is a create or shadow event: the recent count is zero. */
  lemma QuietEnd(trail: seq<Mark>)
    requires trail != [] && !Clears(trail[|trail| - 1]) && !IsStable(trail[|trail| - 1])
    ensures !Hidden(trail) && (Interposed(trail) <==> StableSince(trail) > 0)
  {
    var n := |trail| - 1;
    CountersPositive(trail);
    if StableSince(trail) > 0 {
      var i :| Open(trail, i);
      assert Interposes(trail, i, n);
    }
    if i, j :| Interposes(trail, i, j) { WitnessesCount(trail, i); }
  }

  /** The last mark is a reset: the counter is zero. */
  lemma ResetEnd(trail: seq<Mark>)
    requires trail != [] && trail[|trail| - 1].Reset?
    ensures !Interposed(trail) && (Hidden(trail) <==> RecentStable(Kinds(trail)) > 0)
  {
    var n := |trail| - 1;
    CountersPositive(trail);
    if RecentStable(Kinds(trail)) > 0 {
      var i :| Streak(trail, i);
      assert Hides(trail, i, n);
    }
    if i, j :| Hides(trail, i, j) { WitnessesCount(trail, i); }
  }

  /** The two counts compared: which is larger, and exactly when. */
  lemma {:induction false} CountsCompare(trail: seq<Mark>)
    ensures StableSince(trail) > RecentStable(Kinds(trail)) <==> Interposed(trail)
    ensures StableSince(trail) < RecentStable(Kinds(trail)) <==> Hidden(trail)
  {
    if trail != [] {
      var n := |trail| - 1;
      if IsStable(trail[n]) {
        CountsCompare(trail[..n]);
        ShortenPairs(trail);
        assert Kinds(trail)[..|Kinds(trail)| - 1] == Kinds(trail[..n]);
      } else if trail[n].Reset? {
        ResetEnd(trail);
      } else if !Clears(trail[n]) {
        QuietEnd(trail);
      }
    }
  }

  /** The stored counter against `recent_stable_count`, for every run of the repository. */
  lemma CountersOverRuns(ops: seq<Op>, trigger: bool, id: string)
    requires id in Run(ops, trigger).strategies
    ensures var t, trail := Run(ops, trigger), Trail(ops, trigger, id);
            var stored, recent := t.strategies[id].stagnation, RecentStable(KindsOf(t.events, id));
            && (stored > recent <==> Interposed(trail))
            && (stored < recent <==> Hidden(trail))
  {
    StagnationLaw(ops, trigger, id);
    CountsCompare(Trail(ops, trigger, id));
  }

  predicate NoResets(ops: seq<Op>, id: string) {
    ops == [] || (NoResets(ops[..|ops| - 1], id) && ops[|ops| - 1] != ResetStagnation(id))
  }

  lemma {:induction false} NoResetMarks(ops: seq<Op>, trigger: bool, id: string)
    requires NoResets(ops, id)
    ensures forall j :: 0 <= j < |Trail(ops, trigger, id)| ==> Trail(ops, trigger, id)[j].Logged?
  {
    if ops != [] { NoResetMarks(ops[..|ops| - 1], trigger, id); }
  }

  /** Without `reset_stagnation` the counter is never the smaller, and equal unless an event interposes. */
  lemma WithoutResets(ops: seq<Op>, trigger: bool, id: string)
    requires id in Run(ops, trigger).strategies && NoResets(ops, id)
    ensures var t := Run(ops, trigger);
            var stored, recent := t.strategies[id].stagnation, RecentStable(KindsOf(t.events, id));
            stored >= recent && (stored == recent <==> !Interposed(Trail(ops, trigger, id)))
  {
    CountersOverRuns(ops, trigger, id);
    NoResetMarks(ops, trigger, id);
  }

  lemma RunNext(ops: seq<Op>, op: Op, trigger: bool)
    ensures Run(ops + [op], trigger) == Step(Run(ops, trigger), op).tables
  {
    assert (ops + [op])[..|ops|] == ops;
  }

  lemma RecentNext(kinds: seq<string>)
    ensures RecentStable(kinds + ["stable"]) == RecentStable(kinds) + 1
  {
    assert (kinds + ["stable"])[..|kinds|] == kinds;
  }

  /** From any state, a stable event and a reset: the counter is zero, the table of events counts one more. */
  lemma ResetIsNotSeen(ops: seq<Op>, trigger: bool, id: string)
    requires id in Run(ops, trigger).strategies
    ensures var t := Run(ops + [RecordEvent(id, "stable")] + [ResetStagnation(id)], trigger);
            && id in t.strategies && t.strategies[id].stagnation == 0
            && RecentStable(KindsOf(t.events, id)) == RecentStable(KindsOf(Run(ops, trigger).events, id)) + 1
  {
    var before := Run(ops, trigger);
    RunNext(ops, RecordEvent(id, "stable"), trigger);
    RunNext(ops + [RecordEvent(id, "stable")], ResetStagnation(id), trigger);
    EventNext(before.events, Event(id, "stable"), id);
    RecentNext(KindsOf(before.events, id));
  }

  // ------------------------------------------------------------------------
  // Versions
  // ------------------------------------------------------------------------

  /** The refinements of a strategy that were not refused. */
  function Refinements(ops: seq<Op>, trigger: bool, id: string): nat {
    if ops == [] then 0
    else
      var rest, op := ops[..|ops| - 1], ops[|ops| - 1];
      Refinements(rest, trigger, id)
      + (if op == Op.Refine(id) && Step(Run(rest, trigger), op).reply.TheStrategy? then 1 else 0)
  }

  lemma StepVersions(t: Tables, op: Op, id: string)
    ensures id in t.strategies ==>
              && id in Step(t, op).tables.strategies
              && Step(t, op).tables.strategies[id].version
                 == t.strategies[id].version + (if op == Op.Refine(id) then 1 else 0)
    ensures id !in t.strategies && id in Step(t, op).tables.strategies ==>
              Step(t, op).tables.strategies[id].version == 1
    ensures Step(t, op).reply.TheStrategy? && op.Refine? ==> op.id in t.strategies
    ensures op == Op.Refine(id) && id in t.strategies ==> Step(t, op).reply.TheStrategy?
  {}

  lemma {:induction false} VersionLaw(ops: seq<Op>, trigger: bool, id: string)
    ensures var t := Run(ops, trigger);
            && (id in t.strategies ==> t.strategies[id].version == 1 + Refinements(ops, trigger, id))
            && (id !in t.strategies ==> Refinements(ops, trigger, id) == 0)
  {
    if ops != [] {
      VersionLaw(ops[..|ops| - 1], trigger, id);
      StepVersions(Run(ops[..|ops| - 1], trigger), ops[|ops| - 1], id);
    }
  }

  // ------------------------------------------------------------------------
  // Reports
  // ------------------------------------------------------------------------

  /** What a final report promises; a draft has never been published. */
  ghost predicate WellAuthored(r: Report) {
    if r.final then r.finding.Some? && CodeAccepts(r.finding.value) && r.publishedAt.Some? else r.publishedAt.None?
  }

  ghost predicate Audited(t: Tables) {
    && (forall k :: k in t.reports ==> WellAuthored(t.reports[k]) && t.reports[k].strategyId in t.strategies)
    && (forall i :: 0 <= i < |t.events| ==> t.events[i].strategyId in t.strategies && KnownEvent(t.events[i].kind))
  }

  lemma StepAudited(t: Tables, op: Op)
    requires Audited(t)
    ensures Audited(Step(t, op).tables)
  {
    var after := Step(t, op).tables;
    if op.RecordEvent? {
      assert forall k :: k in after.reports ==> after.reports[k] == t.reports[k];
    } else if op.CreateReport? || op.PublishReport? {
      assert forall k :: k in after.reports && k != op.reportId ==> after.reports[k] == t.reports[k];
      assert op.reportId in after.reports ==> WellAuthored(after.reports[op.reportId]);
    } else {
      assert after.events == t.events && after.reports == t.reports;
    }
  }

  lemma {:induction false} RunsAreAudited(ops: seq<Op>, trigger: bool)
    ensures Audited(Run(ops, trigger))
  {
    if ops != [] {
      RunsAreAudited(ops[..|ops| - 1], trigger);
      StepAudited(Run(ops[..|ops| - 1], trigger), ops[|ops| - 1]);
    }
  }

  /** From one state to a later one: reports stay and keep their subject, and a final report does not change. */
  ghost predicate Sticky(before: Tables, after: Tables, k: string) {
    k in before.reports ==>
      && k in after.reports
      && after.reports[k].(final := before.reports[k].final, finding := before.reports[k].finding,
                           publishedAt := before.reports[k].publishedAt) == before.reports[k]
      && (before.reports[k].final || !after.reports[k].final ==> after.reports[k] == before.reports[k])
  }

  lemma StepSticky(t: Tables, op: Op, k: string)
    ensures Sticky(t, Step(t, op).tables, k)
  {
    if !op.CreateReport? && !op.PublishReport? {
      assert Step(t, op).tables.reports == t.reports;
    }
  }

  lemma StickyJoins(t0: Tables, t1: Tables, t2: Tables, k: string)
    requires Sticky(t0, t1, k) && Sticky(t1, t2, k)
    ensures Sticky(t0, t2, k)
  {}

  lemma {:induction false} ReportsAreSticky(ops: seq<Op>, more: seq<Op>, trigger: bool, k: string)
    ensures Sticky(Run(ops, trigger), Run(ops + more, trigger), k)
  {
    if more == [] {
      assert ops + more == ops;
    } else {
      var n := |more| - 1;
      assert (ops + more)[..|ops + more| - 1] == ops + more[..n];
      ReportsAreSticky(ops, more[..n], trigger, k);
      StepSticky(Run(ops + more[..n], trigger), more[n], k);
      StickyJoins(Run(ops, trigger), Run(ops + more[..n], trigger), Run(ops + more, trigger), k);
    }
  }

  /** Publishing a final report again is refused in every reachable state, and changes nothing. */
  lemma FinalIsLocked(ops: seq<Op>, more: seq<Op>, trigger: bool, k: string, text: string, now: int)
    requires k in Run(ops, trigger).reports && Run(ops, trigger).reports[k].final
    ensures var t := Run(ops + more, trigger);
            Step(t, Op.PublishReport(k, text, now)) == Outcome(t, Failed(ReportFinalLocked))
  {
    ReportsAreSticky(ops, more, trigger, k);
  }

  // ------------------------------------------------------------------------
  // Layers of the final-report check
  // ------------------------------------------------------------------------

  lemma TodoLooksTodo(s: string)
    ensures IsTodo(s) ==> LooksTodo(s)
  {
    if IsTodo(s) {
      forall i | 0 <= i < 5 ensures Upper(s[i]) == "TODO:"[i] { assert s[i] == "TODO:"[i]; }
    }
  }

  /**
   The layers compared: the code refuses everything Postgres refuses, and besides only blank findings; SQLite and the
   code differ exactly on blank findings and on a "TODO:" in other letter case.
   */
  lemma LayersDiffer(s: string)
    ensures CodeAccepts(s) <==> PostgresAccepts(s) && !Blank(s)
    ensures (CodeAccepts(s) <==> SqliteAccepts(s)) <==> !(s != "" && Blank(s)) && !(LooksTodo(s) && !IsTodo(s))
  {
    TodoLooksTodo(s);
    if LooksTodo(s) {
      assert Upper(s[0]) == "TODO:"[0] == 'T';
      assert !Space(s[0]);
    }
  }

  // ------------------------------------------------------------------------
  // The rows of strategies and drafts
  // ------------------------------------------------------------------------

  /** What happens to a strategy's row, and that its own operations touch no other row and no other table. */
  lemma StrategyRowExactly(t: Tables, op: Op, id: string, other: string)
    requires op in {CreateStrategy(id), Op.Refine(id), ResetStagnation(id)} || (op.UpdateStatus? && op.id == id)
    ensures var next := Step(t, op).tables;
            && next.events == t.events && next.reports == t.reports && next.trigger == t.trigger
            && (other != id ==>
                  (other in next.strategies <==> other in t.strategies)
                  && (other in t.strategies ==> next.strategies[other] == t.strategies[other]))
            && (id in next.strategies <==> id in t.strategies || op.CreateStrategy?)
            && (id !in t.strategies && op.CreateStrategy? ==>
                  next.strategies[id] == Strategy("draft", 1, "create", 0))
            && (id in t.strategies ==>
                  var was, now := t.strategies[id], next.strategies[id];
                  && now.version == (if op.Refine? then was.version + 1 else was.version)
                  && now.status == (if op.Refine? then "refining"
                                    else if op.UpdateStatus? then op.status else was.status)
                  && now.stagnation == (if op.ResetStagnation? then 0 else was.stagnation)
                  && now.lastEvent == was.lastEvent)
  {}

  /** A draft is created for a known strategy under a new id, with what it was given, and otherwise refused. */
  lemma DraftExactly(t: Tables, k: string, id: string, version: int, finding: Option<string>, body: string)
    ensures var out := Step(t, CreateReport(k, id, version, finding, body));
            if k !in t.reports && id in t.strategies then
              out.tables == t.(reports := t.reports[k := Report(id, version, false, finding, None, body)])
            else out == Outcome(t, Failed(Integrity))
  {}

  // ------------------------------------------------------------------------
  // Which events are recorded
  // ------------------------------------------------------------------------

  /** An event is recorded if and only if its kind is one of seven and its strategy exists; ids count the events. */
  lemma RecordedExactly(t: Tables, id: string, kind: string, other: string)
    ensures var out := Step(t, RecordEvent(id, kind));
            var known := kind in {"evolve", "fork", "kill", "stable", "create", "shadow_start", "shadow_end"};
            && (out.reply == Failed(UnknownEvent) <==> !known)
            && (out.reply == Failed(Integrity) <==> known && id !in t.strategies)
            && (known && id in t.strategies ==>
                  && out.tables.events == t.events + [Event(id, kind)] && out.reply == EventId(|out.tables.events|)
                  && id in out.tables.strategies && out.tables.strategies[id].lastEvent == kind
                  && out.tables.strategies[id].version == t.strategies[id].version
                  && out.tables.strategies[id].status == t.strategies[id].status
                  && (other in t.strategies && other != id ==>
                        other in out.tables.strategies && out.tables.strategies[other] == t.strategies[other])
                  && out.tables.reports == t.reports)
            && (out.reply.Failed? ==> out.tables == t)
  {}

  // ------------------------------------------------------------------------
  // When a draft is published
  // ------------------------------------------------------------------------

  /** The ASCII characters Python calls white space. */
  lemma SpacesAre(c: char)
    ensures Space(c) <==> c in {' ', '\t', '\n', '\U{0b}', '\U{0c}', '\r', '\U{1c}', '\U{1d}', '\U{1e}', '\U{1f}'}
  {}

  /** The SQLite trigger reads the mark in any letter case. */
  lemma TodoInAnyCase(s: string)
    ensures LooksTodo(s) <==>
              && |s| >= 5 && s[0] in {'T', 't'} && s[1] in {'O', 'o'} && s[2] in {'D', 'd'} && s[3] in {'O', 'o'}
              && s[4] == ':'
  {
    if |s| >= 5 {
      assert LooksTodo(s) <==> Upper(s[0]) == 'T' && Upper(s[1]) == 'O' && Upper(s[2]) == 'D' && Upper(s[3]) == 'O'
                                && Upper(s[4]) == ':';
    }
  }

  /** The text says something, and does not begin with the mark of an unfinished one. */
  predicate Says(text: string) {
    (exists i :: 0 <= i < |text| && !Space(text[i])) && !("TODO:" <= text)
  }

  /**
   A report is published if and only if it exists, is a draft, and its text says something, which the SQLite trigger
   reads in any letter case; then it carries the text and the time, and nothing else changes.
   */
  lemma PublishedExactly(t: Tables, k: string, text: string, now: int, other: string)
    ensures var out := Step(t, PublishReport(k, text, now));
            && (out.reply.TheReport? <==>
                  k in t.reports && !t.reports[k].final && Says(text) && (t.trigger ==> !LooksTodo(text)))
            && (out.reply.TheReport? ==>
                  && k in out.tables.reports && out.reply.report == out.tables.reports[k]
                  && out.tables.reports[k]
                     == Report(t.reports[k].strategyId, t.reports[k].version, true, Some(text), Some(now),
                               t.reports[k].body)
                  && out.tables.reports.Keys == t.reports.Keys
                  && (other in t.reports && other != k ==> out.tables.reports[other] == t.reports[other])
                  && out.tables.strategies == t.strategies && out.tables.events == t.events)
            && (!out.reply.TheReport? ==> out.tables == t)
  {
    if k in t.reports { assert t.reports.Keys == t.reports.Keys + {k}; }
  }

  /** A report created for a known strategy and published is final with that text and time in every later state. */
  lemma PublishedForGood(ops: seq<Op>, k: string, text: string, now: int, more: seq<Op>, trigger: bool)
    requires k in Run(ops, trigger).reports && !Run(ops, trigger).reports[k].final
    requires Says(text) && (trigger ==> !LooksTodo(text))
    ensures var t := Run(ops + [PublishReport(k, text, now)] + more, trigger);
            k in t.reports && t.reports[k].final && t.reports[k].finding == Some(text)
            && t.reports[k].publishedAt == Some(now)
  {
    var op := PublishReport(k, text, now);
    RunNext(ops, op, trigger);
    TriggerStays(ops, trigger);
    PublishedExactly(Run(ops, trigger), k, text, now, k);
    ReportsAreSticky(ops + [op], more, trigger, k);
  }

  lemma {:induction false} TriggerStays(ops: seq<Op>, trigger: bool)
    ensures Run(ops, trigger).trigger == trigger
  {
    if ops != [] { TriggerStays(ops[..|ops| - 1], trigger); }
  }
}
