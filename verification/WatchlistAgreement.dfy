/** The watchlist over whole runs: what every operation keeps, and when the two backends give the same answers. */
module WatchlistAgreement {
  import opened Wrappers
  import opened Watchlist
  import opened WatchlistTheorems

  // ------------------------------------------------------------------------
  // Shelves
  // ------------------------------------------------------------------------

  predicate HasMarket(shelves: seq<Shelf>, m: string) {
    shelves != [] && (shelves[0].market == m || HasMarket(shelves[1..], m))
  }

  predicate DistinctMarkets(shelves: seq<Shelf>) {
    shelves == [] || (!HasMarket(shelves[1..], shelves[0].market) && DistinctMarkets(shelves[1..]))
  }

  lemma {:induction false} NoShelf(shelves: seq<Shelf>, m: string)
    requires !HasMarket(shelves, m)
    ensures RowsOf(shelves, m) == []
  {
    if shelves != [] { NoShelf(shelves[1..], m); }
  }

  lemma {:induction false} SetShelfMarkets(shelves: seq<Shelf>, m: string, rows: seq<Row>, other: string)
    ensures HasMarket(SetShelf(shelves, m, rows), other) <==> HasMarket(shelves, other) || other == m
    ensures RowsOf(SetShelf(shelves, m, rows), other) == if other == m then rows else RowsOf(shelves, other)
  {
    if shelves != [] && shelves[0].market != m {
      SetShelfMarkets(shelves[1..], m, rows, other);
      assert SetShelf(shelves, m, rows)[1..] == SetShelf(shelves[1..], m, rows);
    }
  }

  lemma {:induction false} SetShelfDistinct(shelves: seq<Shelf>, m: string, rows: seq<Row>)
    requires DistinctMarkets(shelves)
    ensures DistinctMarkets(SetShelf(shelves, m, rows))
  {
    if shelves != [] && shelves[0].market != m {
      SetShelfDistinct(shelves[1..], m, rows);
      SetShelfMarkets(shelves[1..], m, rows, shelves[0].market);
      assert SetShelf(shelves, m, rows)[1..] == SetShelf(shelves[1..], m, rows);
    }
  }

  /** The first shelf holding an id. */
  function Home(shelves: seq<Shelf>, id: string): string
    requires AnyHasId(shelves, id)
  {
    if HasId(shelves[0].rows, id) then shelves[0].market else Home(shelves[1..], id)
  }

  lemma {:induction false} HomeIsMarket(shelves: seq<Shelf>, id: string)
    requires AnyHasId(shelves, id)
    ensures HasMarket(shelves, Home(shelves, id))
  {
    if !HasId(shelves[0].rows, id) { HomeIsMarket(shelves[1..], id); }
  }

  lemma {:induction false} HomeHolds(shelves: seq<Shelf>, id: string)
    requires DistinctMarkets(shelves) && AnyHasId(shelves, id)
    ensures HasId(RowsOf(shelves, Home(shelves, id)), id)
    ensures GetAny(shelves, id) == Get(RowsOf(shelves, Home(shelves, id)), id)
  {
    if !HasId(shelves[0].rows, id) {
      HomeHolds(shelves[1..], id);
      HomeIsMarket(shelves[1..], id);
    }
  }

  lemma {:induction false} SomeHolds(shelves: seq<Shelf>, m: string, id: string)
    requires HasId(RowsOf(shelves, m), id)
    ensures AnyHasId(shelves, id)
  {
    if shelves[0].market != m { SomeHolds(shelves[1..], m, id); }
  }

  lemma {:induction false} PatchShelvesRows(shelves: seq<Shelf>, id: string, p: Patch, m: string)
    requires DistinctMarkets(shelves) && AnyHasId(shelves, id)
    ensures HasMarket(PatchShelves(shelves, id, p), m) <==> HasMarket(shelves, m)
    ensures RowsOf(PatchShelves(shelves, id, p), m)
         == if m == Home(shelves, id) then PatchRow(RowsOf(shelves, m), id, p) else RowsOf(shelves, m)
  {
    if !HasId(shelves[0].rows, id) {
      PatchShelvesRows(shelves[1..], id, p, m);
      HomeIsMarket(shelves[1..], id);
      assert PatchShelves(shelves, id, p)[1..] == PatchShelves(shelves[1..], id, p);
    }
  }

  lemma {:induction false} PatchShelvesDistinct(shelves: seq<Shelf>, id: string, p: Patch)
    requires DistinctMarkets(shelves) && AnyHasId(shelves, id)
    ensures DistinctMarkets(PatchShelves(shelves, id, p))
  {
    if !HasId(shelves[0].rows, id) {
      PatchShelvesDistinct(shelves[1..], id, p);
      PatchShelvesRows(shelves[1..], id, p, shelves[0].market);
      assert PatchShelves(shelves, id, p)[1..] == PatchShelves(shelves[1..], id, p);
    }
  }

  lemma {:induction false} DropShelvesRows(shelves: seq<Shelf>, id: string, m: string)
    requires DistinctMarkets(shelves) && AnyHasId(shelves, id)
    ensures HasMarket(DropFromShelves(shelves, id), m) <==> HasMarket(shelves, m)
    ensures RowsOf(DropFromShelves(shelves, id), m)
         == if m == Home(shelves, id) then DropRow(RowsOf(shelves, m), id) else RowsOf(shelves, m)
  {
    if !HasId(shelves[0].rows, id) {
      DropShelvesRows(shelves[1..], id, m);
      HomeIsMarket(shelves[1..], id);
      assert DropFromShelves(shelves, id)[1..] == DropFromShelves(shelves[1..], id);
    }
  }

  lemma {:induction false} DropShelvesDistinct(shelves: seq<Shelf>, id: string)
    requires DistinctMarkets(shelves) && AnyHasId(shelves, id)
    ensures DistinctMarkets(DropFromShelves(shelves, id))
  {
    if !HasId(shelves[0].rows, id) {
      DropShelvesDistinct(shelves[1..], id);
      DropShelvesRows(shelves[1..], id, shelves[0].market);
      assert DropFromShelves(shelves, id)[1..] == DropFromShelves(shelves[1..], id);
    }
  }

  // ------------------------------------------------------------------------
  // One step
  // ------------------------------------------------------------------------

  /** Market by market the two backends hold the same rows in the same order. */
  ghost predicate Related(rows: seq<Row>, shelves: seq<Shelf>) {
    DistinctMarkets(shelves) && forall m :: RowsOf(shelves, m) == OfMarket(rows, m)
  }

  /** The limit counts the user's rows in memory, and the rows of one market in Redis. */
  predicate LimitDiffers(rows: seq<Row>, op: Op) {
    && op.Create? && Refusal(op).None?
    && !HasSymbol(OfMarket(rows, op.market), op.symbol)
    && |rows| >= MAX_ITEMS && |OfMarket(rows, op.market)| < MAX_ITEMS
  }

  lemma SameHome(rows: seq<Row>, shelves: seq<Shelf>, id: string)
    requires UniqueIds(rows) && Related(rows, shelves)
    ensures HasId(rows, id) <==> AnyHasId(shelves, id)
    ensures HasId(rows, id) ==> GetAny(shelves, id) == Get(rows, id) && Home(shelves, id) == Get(rows, id).market
  {
    if HasId(rows, id) {
      MarketHasId(rows, Get(rows, id).market, id);
      SomeHolds(shelves, Get(rows, id).market, id);
    }
    if AnyHasId(shelves, id) {
      HomeHolds(shelves, id);
      MarketHasId(rows, Home(shelves, id), id);
    }
  }

  lemma CreateAgrees(rows: seq<Row>, shelves: seq<Shelf>, op: Op)
    requires UniqueIds(rows) && Related(rows, shelves) && op.Create? && Refusal(op).None?
    ensures MemoryStep(rows, op).reply == RedisStep(shelves, op).reply <==> !LimitDiffers(rows, op)
    ensures !LimitDiffers(rows, op) ==> Related(MemoryStep(rows, op).state, RedisStep(shelves, op).state)
  {
    var mine := OfMarket(rows, op.market);
    assert RowsOf(shelves, op.market) == mine;
    MarketSize(rows, op.market);
    if !HasSymbol(mine, op.symbol) && |rows| < MAX_ITEMS {
      var row := NewRow(op, mine);
      SetShelfDistinct(shelves, op.market, mine + [row]);
      forall m ensures RowsOf(SetShelf(shelves, op.market, mine + [row]), m) == OfMarket(rows + [row], m) {
        SetShelfMarkets(shelves, op.market, mine + [row], m);
        MarketAppend(rows, row, m);
      }
    }
  }

  lemma UpdateAgrees(rows: seq<Row>, shelves: seq<Shelf>, id: string, p: Patch)
    requires UniqueIds(rows) && Related(rows, shelves) && HasId(rows, id)
    ensures Related(PatchRow(rows, id, p), PatchShelves(shelves, id, p))
  {
    SameHome(rows, shelves, id);
    PatchShelvesDistinct(shelves, id, p);
    forall m ensures RowsOf(PatchShelves(shelves, id, p), m) == OfMarket(PatchRow(rows, id, p), m) {
      PatchShelvesRows(shelves, id, p, m);
      PatchMarket(rows, id, p, m);
      MarketHasId(rows, m, id);
      if m != Home(shelves, id) { PatchAbsent(OfMarket(rows, m), id, p); }
    }
  }

  lemma DeleteAgrees(rows: seq<Row>, shelves: seq<Shelf>, id: string)
    requires UniqueIds(rows) && Related(rows, shelves) && HasId(rows, id)
    ensures Related(DropRow(rows, id), DropFromShelves(shelves, id))
  {
    SameHome(rows, shelves, id);
    DropShelvesDistinct(shelves, id);
    forall m ensures RowsOf(DropFromShelves(shelves, id), m) == OfMarket(DropRow(rows, id), m) {
      DropShelvesRows(shelves, id, m);
      DropMarket(rows, id, m);
      MarketHasId(rows, m, id);
      if m != Home(shelves, id) { PatchAbsent(OfMarket(rows, m), id, Patch(None, None, 0)); }
    }
  }

  /** An accepted reorder of one market leaves every other market as it was. */
  lemma OthersUntouched(rows: seq<Row>, market: string, ids: seq<string>, now: int, m: string)
    requires UniqueIds(rows) && Elements(ids) == IdSet(OfMarket(rows, market)) && m != market
    ensures OfMarket(Renumber(rows, ids, now), m) == OfMarket(rows, m)
  {
    RenumberMarket(rows, ids, now, m);
    forall i | 0 <= i < |ids| ensures !HasId(OfMarket(rows, m), ids[i]) {
      InElements(ids, i);
      HasIdInSet(OfMarket(rows, market), ids[i]);
      MarketHasId(rows, market, ids[i]);
      MarketHasId(rows, m, ids[i]);
    }
    RenumberForeign(OfMarket(rows, m), ids, now);
  }

  /** The rows an accepted reorder is about are found, and are the same, in the whole store and in their market. */
  lemma InOrderOfMarket(rows: seq<Row>, market: string, ids: seq<string>, now: int)
    requires UniqueIds(rows) && NoRepeats(ids) && Elements(ids) == IdSet(OfMarket(rows, market))
    ensures forall i :: 0 <= i < |ids| ==> HasId(rows, ids[i]) && HasId(OfMarket(rows, market), ids[i])
    ensures InOrder(rows, ids, now) == InOrder(OfMarket(rows, market), ids, now)
  {
    forall i | 0 <= i < |ids|
      ensures HasId(rows, ids[i]) && HasId(OfMarket(rows, market), ids[i])
      ensures Get(rows, ids[i]) == Get(OfMarket(rows, market), ids[i])
    {
      InElements(ids, i);
      HasIdInSet(OfMarket(rows, market), ids[i]);
      MarketHasId(rows, market, ids[i]);
    }
  }

  lemma ReorderListing(mine: seq<Row>, ids: seq<string>, now: int)
    requires UniqueIds(mine) && OrderRefusal(ids, mine).None?
    ensures forall i :: 0 <= i < |ids| ==> HasId(mine, ids[i])
    ensures Sorted(true, Renumber(mine, ids, now)) == InOrder(mine, ids, now)
    ensures Sorted(false, Renumber(mine, ids, now)) == InOrder(mine, ids, now)
  {
    RenumberSorts(true, mine, ids, now);
    RenumberSorts(false, mine, ids, now);
  }

  lemma ReorderReply(rows: seq<Row>, ids: seq<string>, now: int)
    requires NoRepeats(ids) && forall i :: 0 <= i < |ids| ==> HasId(rows, ids[i])
    ensures Sorted(false, Collected(rows, ids, now)) == InOrder(rows, ids, now)
  {
    CollectedInOrder(rows, ids, now);
    AscendingSortsToItself(false, InOrder(rows, ids, now));
  }

  /**
   Reorder. Both backends answer with the rows in the order of `ids`, differing from the rows before only in index and
   update time; a listing afterwards gives the same; other markets do not change.
   */
  lemma ReorderResult(rows: seq<Row>, market: string, ids: seq<string>, now: int, other: string)
    requires UniqueIds(rows) && OrderRefusal(ids, OfMarket(rows, market)).None?
    ensures forall i :: 0 <= i < |ids| ==> HasId(rows, ids[i])
    ensures var out := MemoryStep(rows, Reorder(market, ids, now));
            && out.reply == Items(InOrder(rows, ids, now))
            && MemoryStep(out.state, List(market)).reply == out.reply
            && (other != market ==> OfMarket(out.state, other) == OfMarket(rows, other))
    ensures Sorted(false, Renumber(OfMarket(rows, market), ids, now)) == InOrder(rows, ids, now)
  {
    InOrderOfMarket(rows, market, ids, now);
    ReorderReply(rows, ids, now);
    MarketUnique(rows, market);
    RenumberMarket(rows, ids, now, market);
    ReorderListing(OfMarket(rows, market), ids, now);
    if other != market { OthersUntouched(rows, market, ids, now, other); }
  }

  lemma ReorderAgrees(rows: seq<Row>, shelves: seq<Shelf>, market: string, ids: seq<string>, now: int)
    requires UniqueIds(rows) && Related(rows, shelves) && OrderRefusal(ids, OfMarket(rows, market)).None?
    ensures var op := Reorder(market, ids, now);
            && MemoryStep(rows, op).reply == RedisStep(shelves, op).reply
            && Related(MemoryStep(rows, op).state, RedisStep(shelves, op).state)
  {
    var mine := RowsOf(shelves, market);
    assert mine == OfMarket(rows, market);
    ReorderResult(rows, market, ids, now, market);
    if ids != [] {
      var renumbered := Renumber(mine, ids, now);
      SetShelfDistinct(shelves, market, renumbered);
      forall m ensures RowsOf(SetShelf(shelves, market, renumbered), m) == OfMarket(Renumber(rows, ids, now), m) {
        SetShelfMarkets(shelves, market, renumbered, m);
        RenumberMarket(rows, ids, now, market);
        if m != market { OthersUntouched(rows, market, ids, now, m); }
      }
    }
  }

  /** One operation: the backends answer alike, and stay alike, if and only if the limit does not differ. */
  lemma StepAgrees(rows: seq<Row>, shelves: seq<Shelf>, op: Op)
    requires UniqueIds(rows) && Related(rows, shelves)
    ensures MemoryStep(rows, op).reply == RedisStep(shelves, op).reply <==> !LimitDiffers(rows, op)
    ensures !LimitDiffers(rows, op) ==> Related(MemoryStep(rows, op).state, RedisStep(shelves, op).state)
  {
    if Refusal(op).None? {
      if op.Create? {
        CreateAgrees(rows, shelves, op);
      } else if op.Update? {
        SameHome(rows, shelves, op.id);
        if HasId(rows, op.id) { UpdateAgrees(rows, shelves, op.id, UpdatePatch(op)); }
      } else if op.Delete? {
        SameHome(rows, shelves, op.id);
        if HasId(rows, op.id) { DeleteAgrees(rows, shelves, op.id); }
      } else {
        assert RowsOf(shelves, op.market) == OfMarket(rows, op.market);
        if op.Reorder? && OrderRefusal(op.ids, OfMarket(rows, op.market)).None? {
          ReorderAgrees(rows, shelves, op.market, op.ids, op.now);
        }
      }
    }
  }

  // ------------------------------------------------------------------------
  // Runs
  // ------------------------------------------------------------------------

  function MemoryRun(ops: seq<Op>): seq<Row> {
    if ops == [] then [] else MemoryStep(MemoryRun(ops[..|ops| - 1]), ops[|ops| - 1]).state
  }

  function RedisRun(ops: seq<Op>): seq<Shelf> {
    if ops == [] then [] else RedisStep(RedisRun(ops[..|ops| - 1]), ops[|ops| - 1]).state
  }

  function MemoryReplies(ops: seq<Op>): (r: seq<Reply>)
    ensures |r| == |ops|
  {
    if ops == [] then []
    else MemoryReplies(ops[..|ops| - 1]) + [MemoryStep(MemoryRun(ops[..|ops| - 1]), ops[|ops| - 1]).reply]
  }

  function RedisReplies(ops: seq<Op>): (r: seq<Reply>)
    ensures |r| == |ops|
  {
    if ops == [] then []
    else RedisReplies(ops[..|ops| - 1]) + [RedisStep(RedisRun(ops[..|ops| - 1]), ops[|ops| - 1]).reply]
  }

  function CreatedIds(ops: seq<Op>): set<string> {
    if ops == [] then {}
    else
      var op := ops[|ops| - 1];
      CreatedIds(ops[..|ops| - 1]) + (if op.Create? then {op.id} else {})
  }

  /** Every creation draws a new uuid. */
  predicate FreshIds(ops: seq<Op>) {
    ops == [] ||
    var rest, op := ops[..|ops| - 1], ops[|ops| - 1];
    FreshIds(rest) && (op.Create? ==> op.id !in CreatedIds(rest))
  }

  predicate EverDiffers(ops: seq<Op>) {
    ops != [] && (EverDiffers(ops[..|ops| - 1]) || LimitDiffers(MemoryRun(ops[..|ops| - 1]), ops[|ops| - 1]))
  }

  /** Ids are unique, symbols are unique within a market, and there are at most fifty rows in all. */
  ghost predicate Sound(rows: seq<Row>) {
    UniqueIds(rows) && |rows| <= MAX_ITEMS && forall m :: UniqueSymbols(OfMarket(rows, m))
  }

  lemma StepKeepsSound(rows: seq<Row>, op: Op)
    requires Sound(rows) && (op.Create? ==> !HasId(rows, op.id))
    ensures Sound(MemoryStep(rows, op).state)
    ensures IdSet(MemoryStep(rows, op).state) <= IdSet(rows) + (if op.Create? then {op.id} else {})
  {
    var next := MemoryStep(rows, op).state;
    if next != rows {
      if op.Create? {
        AppendUnique(rows, NewRow(op, OfMarket(rows, op.market)));
      } else if op.Update? {
        PatchKeepsUnique(rows, op.id, UpdatePatch(op));
      } else if op.Delete? {
        DropKeepsUnique(rows, op.id);
      } else {
        RenumberKeeps(rows, op.ids, op.now);
      }
      forall m ensures UniqueSymbols(OfMarket(next, m)) {
        SymbolsKept(rows, op, m);
      }
    }
  }

  lemma SymbolsKept(rows: seq<Row>, op: Op, m: string)
    requires UniqueIds(rows) && UniqueSymbols(OfMarket(rows, m)) && MemoryStep(rows, op).state != rows
    ensures UniqueSymbols(OfMarket(MemoryStep(rows, op).state, m))
  {
    var mine := OfMarket(rows, m);
    if op.Create? {
      var row := NewRow(op, OfMarket(rows, op.market));
      MarketAppend(rows, row, m);
      AppendUnique(mine, row);
    } else if op.Update? {
      PatchMarket(rows, op.id, UpdatePatch(op), m);
      PatchKeepsUnique(mine, op.id, UpdatePatch(op));
    } else if op.Delete? {
      DropMarket(rows, op.id, m);
      DropKeepsUnique(mine, op.id);
    } else {
      RenumberMarket(rows, op.ids, op.now, m);
      RenumberKeeps(mine, op.ids, op.now);
    }
  }

  lemma {:induction false} RunsAreSound(ops: seq<Op>)
    requires FreshIds(ops)
    ensures Sound(MemoryRun(ops)) && IdSet(MemoryRun(ops)) <= CreatedIds(ops)
  {
    if ops != [] {
      var rest, op := ops[..|ops| - 1], ops[|ops| - 1];
      RunsAreSound(rest);
      if op.Create? { HasIdInSet(MemoryRun(rest), op.id); }
      StepKeepsSound(MemoryRun(rest), op);
    }
  }

  lemma {:induction false} RunsStayRelated(ops: seq<Op>)
    requires FreshIds(ops) && !EverDiffers(ops)
    ensures Related(MemoryRun(ops), RedisRun(ops))
  {
    if ops != [] {
      var rest, op := ops[..|ops| - 1], ops[|ops| - 1];
      RunsStayRelated(rest);
      RunsAreSound(rest);
      StepAgrees(MemoryRun(rest), RedisRun(rest), op);
    }
  }

  /** Over any run the backends give the same answers and errors iff no creation met the differing limit. */
  lemma {:induction false} BackendsAgree(ops: seq<Op>)
    requires FreshIds(ops)
    ensures MemoryReplies(ops) == RedisReplies(ops) <==> !EverDiffers(ops)
  {
    if ops != [] {
      var n := |ops| - 1;
      var rest, op := ops[..n], ops[n];
      BackendsAgree(rest);
      assert MemoryReplies(ops)[..n] == MemoryReplies(rest) && RedisReplies(ops)[..n] == RedisReplies(rest);
      if !EverDiffers(rest) {
        RunsStayRelated(rest);
        RunsAreSound(rest);
        StepAgrees(MemoryRun(rest), RedisRun(rest), op);
        assert MemoryReplies(ops)[n] == MemoryStep(MemoryRun(rest), op).reply;
        assert RedisReplies(ops)[n] == RedisStep(RedisRun(rest), op).reply;
      }
    }
  }

  predicate OneMarket(ops: seq<Op>, m: string) {
    ops == [] || (OneMarket(ops[..|ops| - 1], m) && (ops[|ops| - 1].Create? ==> ops[|ops| - 1].market == m))
  }

  lemma {:induction false} AllOfMarket(ops: seq<Op>, m: string)
    requires FreshIds(ops) && OneMarket(ops, m)
    ensures OfMarket(MemoryRun(ops), m) == MemoryRun(ops)
  {
    if ops != [] {
      var rest, op := ops[..|ops| - 1], ops[|ops| - 1];
      var rows := MemoryRun(rest);
      AllOfMarket(rest, m);
      RunsAreSound(rest);
      if MemoryStep(rows, op).state != rows {
        if op.Create? {
          MarketAppend(rows, NewRow(op, OfMarket(rows, m)), m);
        } else if op.Update? {
          PatchMarket(rows, op.id, UpdatePatch(op), m);
        } else if op.Delete? {
          DropMarket(rows, op.id, m);
        } else {
          RenumberMarket(rows, op.ids, op.now, m);
        }
      }
    }
  }

  /** A user who keeps to one market cannot tell the backends apart. */
  lemma {:induction false} OneMarketAgrees(ops: seq<Op>, m: string)
    requires FreshIds(ops) && OneMarket(ops, m)
    ensures MemoryReplies(ops) == RedisReplies(ops)
  {
    NeverDiffers(ops, m);
    BackendsAgree(ops);
  }

  lemma {:induction false} NeverDiffers(ops: seq<Op>, m: string)
    requires FreshIds(ops) && OneMarket(ops, m)
    ensures !EverDiffers(ops)
  {
    if ops != [] {
      NeverDiffers(ops[..|ops| - 1], m);
      AllOfMarket(ops[..|ops| - 1], m);
    }
  }

  // ------------------------------------------------------------------------
  // A run on which they differ
  // ------------------------------------------------------------------------

  function Name(n: nat): (s: string)
    ensures |s| == n
  {
    seq(n, _ => 'x')
  }

  /** Creations in one market, each with a longer id and symbol than the last. */
  function Fill(n: nat): (ops: seq<Op>)
    ensures |ops| == n
  {
    if n == 0 then [] else Fill(n - 1) + [Create(Name(n), "futures", Name(n), "", "", true, 0)]
  }

  ghost predicate Shorter(rows: seq<Row>, n: nat) {
    forall i :: 0 <= i < |rows| ==> |rows[i].symbol| <= n && rows[i].market == "futures"
  }

  lemma {:induction false} NoLongSymbol(rows: seq<Row>, n: nat, m: string)
    requires Shorter(rows, n)
    ensures !HasSymbol(OfMarket(rows, m), Name(n + 1))
    ensures m != "futures" ==> OfMarket(rows, m) == []
  {
    if rows != [] {
      NoLongSymbol(rows[1..], n, m);
      if rows[0].market == m { assert OfMarket(rows, m)[1..] == OfMarket(rows[1..], m); }
    }
  }

  lemma {:induction false} FillIds(n: nat)
    ensures FreshIds(Fill(n)) && forall id :: id in CreatedIds(Fill(n)) ==> |id| <= n
  {
    if n > 0 {
      FillIds(n - 1);
      assert Fill(n)[..n - 1] == Fill(n - 1);
    }
  }

  lemma {:induction false} FillFills(n: nat)
    requires n <= MAX_ITEMS
    ensures |MemoryRun(Fill(n))| == n && Shorter(MemoryRun(Fill(n)), n)
  {
    if n > 0 {
      FillFills(n - 1);
      assert Fill(n)[..n - 1] == Fill(n - 1);
      FillStep(MemoryRun(Fill(n - 1)), n);
    }
  }

  lemma FillStep(rows: seq<Row>, n: nat)
    requires 0 < n <= MAX_ITEMS && |rows| == n - 1 && Shorter(rows, n - 1)
    ensures var next := MemoryStep(rows, Create(Name(n), "futures", Name(n), "", "", true, 0)).state;
            |next| == n && Shorter(next, n)
  {
    NoLongSymbol(rows, n - 1, "futures");
  }

  /** Fifty rows in one market, then a creation in another: memory refuses it, Redis accepts it. */
  lemma FiftyThenAnotherMarket()
    ensures var ops := Fill(MAX_ITEMS) + [Create(Name(51), "spot", Name(51), "", "", true, 0)];
            FreshIds(ops) && MemoryReplies(ops) != RedisReplies(ops)
  {
    var op := Create(Name(51), "spot", Name(51), "", "", true, 0);
    var ops := Fill(MAX_ITEMS) + [op];
    assert ops[..|ops| - 1] == Fill(MAX_ITEMS);
    FillIds(MAX_ITEMS);
    FillFills(MAX_ITEMS);
    NoLongSymbol(MemoryRun(Fill(MAX_ITEMS)), MAX_ITEMS, "spot");
    BackendsAgree(ops);
  }

  // ------------------------------------------------------------------------
  // The Redis backend on its own
  // ------------------------------------------------------------------------

  /** Whatever the run, a market holds at most fifty rows, of distinct symbols. */
  ghost predicate ShelfSound(shelves: seq<Shelf>, m: string) {
    |RowsOf(shelves, m)| <= MAX_ITEMS && UniqueSymbols(RowsOf(shelves, m))
  }

  lemma RedisStepKeeps(shelves: seq<Shelf>, op: Op, m: string)
    requires DistinctMarkets(shelves) && ShelfSound(shelves, m)
    ensures DistinctMarkets(RedisStep(shelves, op).state) && ShelfSound(RedisStep(shelves, op).state, m)
  {
    if RedisStep(shelves, op).state != shelves {
      var mine := RowsOf(shelves, m);
      if op.Create? {
        var rows := RowsOf(shelves, op.market) + [NewRow(op, RowsOf(shelves, op.market))];
        SetShelfDistinct(shelves, op.market, rows);
        SetShelfMarkets(shelves, op.market, rows, m);
        AppendUnique(mine, NewRow(op, mine));
      } else if op.Update? {
        PatchShelvesDistinct(shelves, op.id, UpdatePatch(op));
        PatchShelvesRows(shelves, op.id, UpdatePatch(op), m);
        PatchKeepsUnique(mine, op.id, UpdatePatch(op));
      } else if op.Delete? {
        DropShelvesDistinct(shelves, op.id);
        DropShelvesRows(shelves, op.id, m);
        DropKeepsUnique(mine, op.id);
      } else {
        var rows := Renumber(RowsOf(shelves, op.market), op.ids, op.now);
        SetShelfDistinct(shelves, op.market, rows);
        SetShelfMarkets(shelves, op.market, rows, m);
        RenumberKeeps(mine, op.ids, op.now);
      }
    }
  }

  lemma {:induction false} RedisRunsAreSound(ops: seq<Op>, m: string)
    ensures DistinctMarkets(RedisRun(ops)) && ShelfSound(RedisRun(ops), m)
  {
    if ops != [] {
      RedisRunsAreSound(ops[..|ops| - 1], m);
      RedisStepKeeps(RedisRun(ops[..|ops| - 1]), ops[|ops| - 1], m);
    }
  }

  // ------------------------------------------------------------------------
  // Creation and listings
  // ------------------------------------------------------------------------

  lemma NewestListsLast(mine: seq<Row>, row: Row)
    requires row.sortIndex == NextIndex(mine)
    ensures Sorted(true, mine + [row]) == Sorted(true, mine) + [row]
  {
    assert (mine + [row])[..|mine|] == mine;
    SortedBelow(mine, NextIndex(mine));
  }

  /** A created row goes to the end of its market's listing, and no other listing changes. */
  lemma CreateAppends(rows: seq<Row>, op: Op, m: string)
    requires op.Create? && MemoryStep(rows, op).reply.Item?
    ensures var before, out := MemoryStep(rows, List(m)).reply.rows, MemoryStep(rows, op);
            MemoryStep(out.state, List(m)).reply.rows == if m == op.market then before + [out.reply.row] else before
  {
    var mine := OfMarket(rows, op.market);
    MarketAppend(rows, NewRow(op, mine), m);
    NewestListsLast(mine, NewRow(op, mine));
  }

  /** The same in Redis, in any state it can be in, whatever memory would have answered. */
  lemma RedisCreateAppends(shelves: seq<Shelf>, op: Op, m: string)
    requires op.Create? && RedisStep(shelves, op).reply.Item?
    ensures var before, out := RedisStep(shelves, List(m)).reply.rows, RedisStep(shelves, op);
            RedisStep(out.state, List(m)).reply.rows == if m == op.market then before + [out.reply.row] else before
  {
    var mine := RowsOf(shelves, op.market);
    var row := NewRow(op, mine);
    assert RedisStep(shelves, op) == Outcome(SetShelf(shelves, op.market, mine + [row]), Item(row));
    SetShelfMarkets(shelves, op.market, mine + [row], m);
    NewestListsLast(mine, row);
  }

  lemma {:induction false} SortedBelow(rows: seq<Row>, k: int)
    requires forall i :: 0 <= i < |rows| ==> rows[i].sortIndex < k
    ensures forall i :: 0 <= i < |rows| ==> Sorted(true, rows)[i].sortIndex < k
  {
    var s := Sorted(true, rows);
    SortedMultiset(true, rows);
    forall i | 0 <= i < |rows| ensures s[i].sortIndex < k {
      assert s[i] in multiset(rows);
    }
  }

  /** A listing is exactly the rows of the market, by index and then by creation time. */
  lemma ListingIsOrdered(rows: seq<Row>, m: string)
    ensures var s := MemoryStep(rows, List(m)).reply.rows;
            && multiset(s) == multiset(OfMarket(rows, m))
            && forall i :: 0 < i < |s| ==> NotAfter(true, s[i - 1], s[i])
  {
    SortedMultiset(true, OfMarket(rows, m));
    SortedOrdered(true, OfMarket(rows, m));
  }
}
