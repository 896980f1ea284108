/**
 One user's watchlist (app/infra/watchlist_store.py) on its two fallback
 backends: a list of rows per market (Redis) and one insertion-ordered
 dictionary of rows by id (memory).
 */
module Watchlist {
  import opened Wrappers

  const MAX_ITEMS: nat := 50
  const MAX_NOTE: nat := 280

  datatype Row = Row(id: string, market: string, symbol: string, details: string, note: string,
                     sortIndex: int, createdAt: int, updatedAt: int)

  datatype Error = BadRequest | UnknownSymbol | Duplicate | LimitReached | NotFound

  datatype Patch = Patch(note: Option<string>, sortIndex: Option<int>, updatedAt: int)

  /** The rows of one market, under their key of the Redis value. */
  datatype Shelf = Shelf(market: string, rows: seq<Row>)

  datatype Op =
    | Create(id: string, market: string, symbol: string, details: string, note: string, known: bool, now: int)
    | Update(id: string, newNote: Option<string>, newIndex: Option<int>, now: int)
    | Delete(id: string)
    | Reorder(market: string, ids: seq<string>, now: int)
    | List(market: string)

  datatype Reply = Items(rows: seq<Row>) | Item(row: Row) | Deleted | Failed(error: Error)

  datatype Outcome<S> = Outcome(state: S, reply: Reply)

  // ------------------------------------------------------------------------
  // Lists of rows
  // ------------------------------------------------------------------------

  function Patched(r: Row, p: Patch): Row {
    r.(note := if p.note.Some? then p.note.value else r.note,
       sortIndex := if p.sortIndex.Some? then p.sortIndex.value else r.sortIndex,
       updatedAt := p.updatedAt)
  }

  predicate HasId(rows: seq<Row>, id: string) {
    rows != [] && (rows[0].id == id || HasId(rows[1..], id))
  }

  function Get(rows: seq<Row>, id: string): (r: Row)
    requires HasId(rows, id)
    ensures r.id == id
  {
    if rows[0].id == id then rows[0] else Get(rows[1..], id)
  }

  predicate HasSymbol(rows: seq<Row>, symbol: string) {
    rows != [] && (rows[0].symbol == symbol || HasSymbol(rows[1..], symbol))
  }

  function OfMarket(rows: seq<Row>, market: string): seq<Row> {
    if rows == [] then []
    else if rows[0].market == market then [rows[0]] + OfMarket(rows[1..], market)
    else OfMarket(rows[1..], market)
  }

  function PatchRow(rows: seq<Row>, id: string, p: Patch): (s: seq<Row>)
    ensures |s| == |rows|
  {
    if rows == [] then []
    else if rows[0].id == id then [Patched(rows[0], p)] + rows[1..]
    else [rows[0]] + PatchRow(rows[1..], id, p)
  }

  function DropRow(rows: seq<Row>, id: string): (s: seq<Row>)
    ensures |s| <= |rows|
  {
    if rows == [] then []
    else if rows[0].id == id then DropRow(rows[1..], id)
    else [rows[0]] + DropRow(rows[1..], id)
  }

  function IdSet(rows: seq<Row>): set<string> {
    if rows == [] then {} else {rows[0].id} + IdSet(rows[1..])
  }

  function Elements(ids: seq<string>): set<string> {
    if ids == [] then {} else Elements(ids[..|ids| - 1]) + {ids[|ids| - 1]}
  }

  predicate NoRepeats(ids: seq<string>) {
    ids == [] || (ids[|ids| - 1] !in Elements(ids[..|ids| - 1]) && NoRepeats(ids[..|ids| - 1]))
  }

  /** The sort keys: index and then creation time for listings (`full`), index alone after a reorder. */
  predicate NotAfter(full: bool, a: Row, b: Row) {
    a.sortIndex < b.sortIndex || (a.sortIndex == b.sortIndex && (!full || a.createdAt <= b.createdAt))
  }

  function Insert(full: bool, s: seq<Row>, r: Row): (t: seq<Row>)
    ensures |t| == |s| + 1
  {
    var n := |s| - 1;
    if s == [] || NotAfter(full, s[n], r) then s + [r] else Insert(full, s[..n], r) + [s[n]]
  }

  /** A stable sort. */
  function Sorted(full: bool, rows: seq<Row>): (s: seq<Row>)
    ensures |s| == |rows|
  {
    if rows == [] then [] else Insert(full, Sorted(full, rows[..|rows| - 1]), rows[|rows| - 1])
  }

  function NextIndex(rows: seq<Row>): (k: int)
    ensures forall i :: 0 <= i < |rows| ==> rows[i].sortIndex < k
  {
    if rows == [] then 0
    else
      var n := |rows| - 1;
      if n == 0 then rows[0].sortIndex + 1
      else
        var k := NextIndex(rows[..n]);
        assert forall i :: 0 <= i < n ==> rows[..n][i] == rows[i];
        if rows[n].sortIndex < k then k else rows[n].sortIndex + 1
  }

  function IndexPatch(k: int, now: int): Patch {
    Patch(None, Some(k), now)
  }

  /** The rows after giving the k-th of `ids` the index k, one after another. */
  function Renumber(rows: seq<Row>, ids: seq<string>, now: int): (s: seq<Row>)
    ensures |s| == |rows|
  {
    if ids == [] then rows
    else
      var n := |ids| - 1;
      PatchRow(Renumber(rows, ids[..n], now), ids[n], IndexPatch(n, now))
  }

  // ------------------------------------------------------------------------
  // Shelves
  // ------------------------------------------------------------------------

  function RowsOf(shelves: seq<Shelf>, market: string): seq<Row> {
    if shelves == [] then []
    else if shelves[0].market == market then shelves[0].rows
    else RowsOf(shelves[1..], market)
  }

  function SetShelf(shelves: seq<Shelf>, market: string, rows: seq<Row>): seq<Shelf> {
    if shelves == [] then [Shelf(market, rows)]
    else if shelves[0].market == market then [Shelf(market, rows)] + shelves[1..]
    else [shelves[0]] + SetShelf(shelves[1..], market, rows)
  }

  predicate AnyHasId(shelves: seq<Shelf>, id: string) {
    shelves != [] && (HasId(shelves[0].rows, id) || AnyHasId(shelves[1..], id))
  }

  function GetAny(shelves: seq<Shelf>, id: string): Row
    requires AnyHasId(shelves, id)
  {
    if HasId(shelves[0].rows, id) then Get(shelves[0].rows, id) else GetAny(shelves[1..], id)
  }

  function PatchShelves(shelves: seq<Shelf>, id: string, p: Patch): seq<Shelf> {
    if shelves == [] then []
    else if HasId(shelves[0].rows, id) then
      [Shelf(shelves[0].market, PatchRow(shelves[0].rows, id, p))] + shelves[1..]
    else [shelves[0]] + PatchShelves(shelves[1..], id, p)
  }

  function DropFromShelves(shelves: seq<Shelf>, id: string): seq<Shelf> {
    if shelves == [] then []
    else if HasId(shelves[0].rows, id) then
      [Shelf(shelves[0].market, DropRow(shelves[0].rows, id))] + shelves[1..]
    else [shelves[0]] + DropFromShelves(shelves[1..], id)
  }

  // ------------------------------------------------------------------------
  // Operations
  // ------------------------------------------------------------------------

  /** What create_item and update_item refuse before they reach a backend. */
  function Refusal(op: Op): Option<Error> {
    match op
    case Create(_, _, _, _, note, known, _) =>
      if |note| > MAX_NOTE then Some(BadRequest) else if !known then Some(UnknownSymbol) else None
    case Update(_, note, index, _) =>
      if note.None? && index.None? then Some(BadRequest)
      else if note.Some? && |note.value| > MAX_NOTE then Some(BadRequest)
      else None
    case _ => None
  }

  function NewRow(op: Op, existing: seq<Row>): Row
    requires op.Create?
  {
    Row(op.id, op.market, op.symbol, op.details, op.note, NextIndex(existing), op.now, op.now)
  }

  function UpdatePatch(op: Op): Patch
    requires op.Update?
  {
    Patch(op.newNote, op.newIndex, op.now)
  }

  /** Why reorder refuses a list of ids for the existing rows. */
  function OrderRefusal(ids: seq<string>, existing: seq<Row>): Option<Error> {
    if !NoRepeats(ids) then Some(BadRequest)
    else if Elements(ids) != IdSet(existing) then Some(NotFound)
    else None
  }

  /** The rows in the order of `ids`, as the memory backend collects them while it renumbers. */
  function Collected(rows: seq<Row>, ids: seq<string>, now: int): seq<Row>
  {
    if ids == [] then []
    else
      var n := |ids| - 1;
      var sofar := Renumber(rows, ids[..n], now);
      Collected(rows, ids[..n], now)
      + (if HasId(sofar, ids[n]) then [Patched(Get(sofar, ids[n]), IndexPatch(n, now))] else [])
  }

  function MemoryStep(rows: seq<Row>, op: Op): Outcome<seq<Row>> {
    if Refusal(op).Some? then Outcome(rows, Failed(Refusal(op).value))
    else
      match op
      case Create(id, market, symbol, _, _, _, _) =>
        var mine := OfMarket(rows, market);
        var row := NewRow(op, mine);
        if HasSymbol(mine, symbol) then Outcome(rows, Failed(Duplicate))
        else if |rows| >= MAX_ITEMS then Outcome(rows, Failed(LimitReached))
        else Outcome(rows + [row], Item(row))
      case Update(id, _, _, _) =>
        if !HasId(rows, id) then Outcome(rows, Failed(NotFound))
        else Outcome(PatchRow(rows, id, UpdatePatch(op)), Item(Patched(Get(rows, id), UpdatePatch(op))))
      case Delete(id) =>
        if !HasId(rows, id) then Outcome(rows, Failed(NotFound)) else Outcome(DropRow(rows, id), Deleted)
      case Reorder(market, ids, now) =>
        var refusal := OrderRefusal(ids, OfMarket(rows, market));
        if refusal.Some? then Outcome(rows, Failed(refusal.value))
        else Outcome(Renumber(rows, ids, now), Items(Sorted(false, Collected(rows, ids, now))))
      case List(market) =>
        Outcome(rows, Items(Sorted(true, OfMarket(rows, market))))
  }

  function RedisStep(shelves: seq<Shelf>, op: Op): Outcome<seq<Shelf>> {
    if Refusal(op).Some? then Outcome(shelves, Failed(Refusal(op).value))
    else
      match op
      case Create(id, market, symbol, _, _, _, _) =>
        var mine := RowsOf(shelves, market);
        var row := NewRow(op, mine);
        if HasSymbol(mine, symbol) then Outcome(shelves, Failed(Duplicate))
        else if |mine| >= MAX_ITEMS then Outcome(shelves, Failed(LimitReached))
        else Outcome(SetShelf(shelves, market, mine + [row]), Item(row))
      case Update(id, _, _, _) =>
        if !AnyHasId(shelves, id) then Outcome(shelves, Failed(NotFound))
        else Outcome(PatchShelves(shelves, id, UpdatePatch(op)), Item(Patched(GetAny(shelves, id), UpdatePatch(op))))
      case Delete(id) =>
        if !AnyHasId(shelves, id) then Outcome(shelves, Failed(NotFound))
        else Outcome(DropFromShelves(shelves, id), Deleted)
      case Reorder(market, ids, now) =>
        var mine := RowsOf(shelves, market);
        var refusal := OrderRefusal(ids, mine);
        if refusal.Some? then Outcome(shelves, Failed(refusal.value))
        else
          var renumbered := Renumber(mine, ids, now);
          Outcome(if ids == [] then shelves else SetShelf(shelves, market, renumbered),
                  Items(Sorted(false, renumbered)))
      case List(market) =>
        Outcome(shelves, Items(Sorted(true, RowsOf(shelves, market))))
  }
}
