/** The watchlist store as it runs: each public operation changes the chosen backend in place. */
module WatchlistStore {
  import opened Wrappers
  import opened Watchlist
  import opened WatchlistTheorems

  lemma {:induction false} DropShrinks(rows: seq<Row>, id: string)
    ensures |DropRow(rows, id)| == |rows| <==> !HasId(rows, id)
  {
    if rows != [] { DropShrinks(rows[1..], id); }
  }

  /** `any(r.symbol == symbol for r in rows)`. */
  method SymbolTaken(rows: seq<Row>, symbol: string) returns (taken: bool)
    ensures taken == HasSymbol(rows, symbol)
  {
    var i := 0;
    while i < |rows|
      invariant 0 <= i <= |rows| && HasSymbol(rows, symbol) == HasSymbol(rows[i..], symbol)
    {
      if rows[i].symbol == symbol { return true; }
      i := i + 1;
    }
    return false;
  }

  method SelectMarket(rows: seq<Row>, market: string) returns (mine: seq<Row>)
    ensures mine == OfMarket(rows, market)
  {
    mine := [];
    var i := 0;
    while i < |rows|
      invariant 0 <= i <= |rows| && mine + OfMarket(rows[i..], market) == OfMarket(rows, market)
    {
      if rows[i].market == market { mine := mine + [rows[i]]; }
      i := i + 1;
    }
  }

  /** `[r for r in rows if r.id != id]`. */
  method Without(rows: seq<Row>, id: string) returns (kept: seq<Row>)
    ensures kept == DropRow(rows, id)
  {
    kept := [];
    var j := 0;
    while j < |rows|
      invariant 0 <= j <= |rows| && kept + DropRow(rows[j..], id) == DropRow(rows, id)
    {
      if rows[j].id != id { kept := kept + [rows[j]]; }
      j := j + 1;
    }
  }

  lemma PatchNext(rows: seq<Row>, id: string, p: Patch, j: nat)
    requires j < |rows|
    ensures rows[..j] + PatchRow(rows[j..], id, p)
         == if rows[j].id == id then rows[j := Patched(rows[j], p)]
            else rows[..j + 1] + PatchRow(rows[j + 1..], id, p)
  {
    var tail := rows[j..];
    assert tail[0] == rows[j] && tail[1..] == rows[j + 1..];
    if rows[j].id != id { assert rows[..j + 1] == rows[..j] + [rows[j]]; }
  }

  /** The inner loop of `_update_redis`. */
  method PatchFirst(rows: seq<Row>, id: string, p: Patch) returns (found: bool, row: Row, patched: seq<Row>)
    ensures found <==> HasId(rows, id)
    ensures found ==> row == Patched(Get(rows, id), p) && patched == PatchRow(rows, id, p)
  {
    row := Row("", "", "", "", "", 0, 0, 0);
    var j := 0;
    while j < |rows|
      invariant 0 <= j <= |rows| && HasId(rows, id) == HasId(rows[j..], id)
      invariant HasId(rows, id) ==> Get(rows, id) == Get(rows[j..], id)
      invariant PatchRow(rows, id, p) == rows[..j] + PatchRow(rows[j..], id, p)
    {
      PatchNext(rows, id, p, j);
      if rows[j].id == id {
        row := Patched(rows[j], p);
        return true, row, rows[j := row];
      }
      j := j + 1;
    }
    return false, row, rows;
  }

  /** None of the first `i` shelves holds the id. */
  ghost predicate SearchedTo(shelves: seq<Shelf>, id: string, p: Patch, i: nat)
    requires i <= |shelves|
  {
    && AnyHasId(shelves, id) == AnyHasId(shelves[i..], id)
    && (AnyHasId(shelves[i..], id) ==> AnyHasId(shelves, id) && GetAny(shelves, id) == GetAny(shelves[i..], id))
    && PatchShelves(shelves, id, p) == shelves[..i] + PatchShelves(shelves[i..], id, p)
    && DropFromShelves(shelves, id) == shelves[..i] + DropFromShelves(shelves[i..], id)
  }

  lemma Splice(shelves: seq<Shelf>, i: nat, s: Shelf)
    requires i < |shelves|
    ensures shelves[..i] + ([s] + shelves[i + 1..]) == shelves[i := s]
    ensures forall rest :: shelves[..i] + ([shelves[i]] + rest) == shelves[..i + 1] + rest
  {
    forall rest ensures shelves[..i] + ([shelves[i]] + rest) == shelves[..i + 1] + rest {
      assert shelves[..i + 1] == shelves[..i] + [shelves[i]];
    }
  }

  lemma SearchNext(shelves: seq<Shelf>, id: string, p: Patch, i: nat)
    requires i < |shelves| && SearchedTo(shelves, id, p, i)
    ensures var rows, market := shelves[i].rows, shelves[i].market;
            if HasId(rows, id) then
              && AnyHasId(shelves, id) && GetAny(shelves, id) == Get(rows, id)
              && PatchShelves(shelves, id, p) == shelves[i := Shelf(market, PatchRow(rows, id, p))]
              && DropFromShelves(shelves, id) == shelves[i := Shelf(market, DropRow(rows, id))]
            else SearchedTo(shelves, id, p, i + 1)
  {
    var tail, rows, market := shelves[i..], shelves[i].rows, shelves[i].market;
    assert tail[0] == shelves[i] && tail[1..] == shelves[i + 1..];
    if HasId(rows, id) {
      Splice(shelves, i, Shelf(market, PatchRow(rows, id, p)));
      Splice(shelves, i, Shelf(market, DropRow(rows, id)));
    } else {
      Splice(shelves, i, shelves[i]);
    }
  }

  class Store {
    const useRedis: bool
    var memory: seq<Row>
    var shelves: seq<Shelf>

    constructor (useRedis: bool)
      ensures this.useRedis == useRedis && memory == [] && shelves == []
    {
      this.useRedis := useRedis;
      memory, shelves := [], [];
    }

    /** The backend in use took the step `op`; the other one was left alone. */
    ghost predicate Took(before: seq<Row>, shelvesBefore: seq<Shelf>, op: Op, reply: Reply)
      reads this
    {
      if useRedis then
        RedisStep(shelvesBefore, op) == Outcome(shelves, reply) && memory == before
      else
        MemoryStep(before, op) == Outcome(memory, reply) && shelves == shelvesBefore
    }

    method Existing(market: string) returns (rows: seq<Row>)
      ensures rows == if useRedis then RowsOf(shelves, market) else OfMarket(memory, market)
    {
      if useRedis {
        rows := RowsOf(shelves, market);
      } else {
        rows := SelectMarket(memory, market);
      }
    }

    method ListItems(market: string) returns (reply: Reply)
      ensures Took(memory, shelves, List(market), reply)
    {
      var rows := Existing(market);
      reply := Items(Sorted(true, rows));
    }

    method CreateItem(id: string, market: string, symbol: string, details: string, note: string, known: bool, now: int)
      returns (reply: Reply)
      modifies this
      ensures Took(old(memory), old(shelves), Create(id, market, symbol, details, note, known, now), reply)
    {
      if |note| > MAX_NOTE { return Failed(BadRequest); }
      if !known { return Failed(UnknownSymbol); }
      var existing := Existing(market);
      var row := Row(id, market, symbol, details, note, NextIndex(existing), now, now);
      var taken := SymbolTaken(existing, symbol);
      if taken { return Failed(Duplicate); }
      if useRedis {
        if |existing| >= MAX_ITEMS { return Failed(LimitReached); }
        shelves := SetShelf(shelves, market, existing + [row]);
      } else {
        if |memory| >= MAX_ITEMS { return Failed(LimitReached); }
        memory := memory + [row];
      }
      return Item(row);
    }

    /** The nested loop over markets and rows: the first row with the id is patched. */
    method UpdateRedis(id: string, p: Patch) returns (reply: Reply)
      modifies this`shelves
      ensures AnyHasId(old(shelves), id) ==>
                shelves == PatchShelves(old(shelves), id, p) && reply == Item(Patched(GetAny(old(shelves), id), p))
      ensures !AnyHasId(old(shelves), id) ==> shelves == old(shelves) && reply == Failed(NotFound)
    {
      var i := 0;
      while i < |shelves|
        invariant 0 <= i <= |shelves| && shelves == old(shelves) && SearchedTo(shelves, id, p, i)
      {
        SearchNext(shelves, id, p, i);
        var found, row, rows := PatchFirst(shelves[i].rows, id, p);
        if found {
          shelves := shelves[i := Shelf(shelves[i].market, rows)];
          return Item(row);
        }
        i := i + 1;
      }
      return Failed(NotFound);
    }

    method UpdateMemory(id: string, p: Patch) returns (reply: Reply)
      modifies this`memory
      ensures HasId(old(memory), id) ==>
                memory == PatchRow(old(memory), id, p) && reply == Item(Patched(Get(old(memory), id), p))
      ensures !HasId(old(memory), id) ==> memory == old(memory) && reply == Failed(NotFound)
    {
      if !HasId(memory, id) { return Failed(NotFound); }
      var row := Patched(Get(memory, id), p);
      memory := PatchRow(memory, id, p);
      return Item(row);
    }

    method UpdateItem(id: string, note: Option<string>, index: Option<int>, now: int) returns (reply: Reply)
      modifies this
      ensures Took(old(memory), old(shelves), Update(id, note, index, now), reply)
    {
      if note.None? && index.None? { return Failed(BadRequest); }
      if note.Some? && |note.value| > MAX_NOTE { return Failed(BadRequest); }
      if useRedis {
        reply := UpdateRedis(id, Patch(note, index, now));
      } else {
        reply := UpdateMemory(id, Patch(note, index, now));
      }
    }

    /** Each market's rows are filtered in turn, until one of the lists gets shorter. */
    method DeleteRedis(id: string) returns (reply: Reply)
      modifies this`shelves
      ensures AnyHasId(old(shelves), id) ==> shelves == DropFromShelves(old(shelves), id) && reply == Deleted
      ensures !AnyHasId(old(shelves), id) ==> shelves == old(shelves) && reply == Failed(NotFound)
    {
      ghost var p := Patch(None, None, 0);
      var i := 0;
      while i < |shelves|
        invariant 0 <= i <= |shelves| && shelves == old(shelves) && SearchedTo(shelves, id, p, i)
      {
        SearchNext(shelves, id, p, i);
        var rows := shelves[i].rows;
        var kept := Without(rows, id);
        DropShrinks(rows, id);
        if |kept| != |rows| {
          shelves := shelves[i := Shelf(shelves[i].market, kept)];
          return Deleted;
        }
        i := i + 1;
      }
      return Failed(NotFound);
    }

    method DeleteItem(id: string) returns (reply: Reply)
      modifies this
      ensures Took(old(memory), old(shelves), Delete(id), reply)
    {
      if useRedis {
        reply := DeleteRedis(id);
      } else if !HasId(memory, id) {
        reply := Failed(NotFound);
      } else {
        memory := DropRow(memory, id);
        reply := Deleted;
      }
    }

    method RenumberMemory(ids: seq<string>, now: int) returns (collected: seq<Row>)
      modifies this`memory
      ensures memory == Renumber(old(memory), ids, now) && collected == Collected(old(memory), ids, now)
    {
      collected := [];
      var k := 0;
      while k < |ids|
        invariant 0 <= k <= |ids|
        invariant memory == Renumber(old(memory), ids[..k], now)
        invariant collected == Collected(old(memory), ids[..k], now)
      {
        assert ids[..k + 1][..k] == ids[..k];
        if !HasId(memory, ids[k]) { PatchAbsent(memory, ids[k], IndexPatch(k, now)); }
        var reply := UpdateMemory(ids[k], IndexPatch(k, now));
        if reply.Item? { collected := collected + [reply.row]; }
        k := k + 1;
      }
      assert ids[..k] == ids;
    }

    method RenumberRedis(mine: seq<Row>, ids: seq<string>, now: int) returns (rows: seq<Row>)
      ensures rows == Renumber(mine, ids, now)
    {
      rows := mine;
      var k := 0;
      while k < |ids|
        invariant 0 <= k <= |ids| && rows == Renumber(mine, ids[..k], now)
      {
        assert ids[..k + 1][..k] == ids[..k];
        rows := PatchRow(rows, ids[k], IndexPatch(k, now));
        k := k + 1;
      }
      assert ids[..k] == ids;
    }

    method ReorderItems(market: string, ids: seq<string>, now: int) returns (reply: Reply)
      modifies this
      ensures Took(old(memory), old(shelves), Reorder(market, ids, now), reply)
    {
      var existing := Existing(market);
      if !NoRepeats(ids) { return Failed(BadRequest); }
      if Elements(ids) != IdSet(existing) { return Failed(NotFound); }
      if useRedis {
        var rows := RenumberRedis(existing, ids, now);
        if ids != [] { shelves := SetShelf(shelves, market, rows); }
        reply := Items(Sorted(false, rows));
      } else {
        var rows := RenumberMemory(ids, now);
        reply := Items(Sorted(false, rows));
      }
    }
  }
}
