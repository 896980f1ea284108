/** What each watchlist operation does to the rows a user sees, field by field. */
module WatchlistResults {
  import opened Wrappers
  import opened Watchlist
  import opened WatchlistTheorems

  lemma {:induction false} HasIdMeans(rows: seq<Row>, id: string)
    ensures HasId(rows, id) <==> exists i :: 0 <= i < |rows| && rows[i].id == id
    ensures HasId(rows, id) ==> Get(rows, id) in rows
  {
    if rows != [] {
      HasIdMeans(rows[1..], id);
      if HasId(rows[1..], id) {
        var i :| 0 <= i < |rows[1..]| && rows[1..][i].id == id;
        assert rows[i + 1].id == id;
      }
    }
  }

  lemma {:induction false} HasSymbolMeans(rows: seq<Row>, symbol: string)
    ensures HasSymbol(rows, symbol) <==> exists i :: 0 <= i < |rows| && rows[i].symbol == symbol
  {
    if rows != [] {
      HasSymbolMeans(rows[1..], symbol);
      if HasSymbol(rows[1..], symbol) {
        var i :| 0 <= i < |rows[1..]| && rows[1..][i].symbol == symbol;
        assert rows[i + 1].symbol == symbol;
      }
    }
  }

  lemma {:induction false} OfMarketMeans(rows: seq<Row>, m: string)
    ensures forall r :: r in OfMarket(rows, m) <==> r in rows && r.market == m
  {
    if rows != [] { OfMarketMeans(rows[1..], m); }
  }

  /** A listing: the rows of the market, by index, and of equal index by creation time. */
  lemma ListingExactly(rows: seq<Row>, m: string)
    ensures var s := MemoryStep(rows, List(m)).reply.rows;
            && MemoryStep(rows, List(m)).state == rows && |s| == |OfMarket(rows, m)|
            && (forall r :: r in s <==> r in rows && r.market == m)
            && (forall i :: 0 < i < |s| ==>
                  s[i - 1].sortIndex < s[i].sortIndex
                  || (s[i - 1].sortIndex == s[i].sortIndex && s[i - 1].createdAt <= s[i].createdAt))
  {
    var mine := OfMarket(rows, m);
    var s := Sorted(true, mine);
    SortedMultiset(true, mine);
    SortedOrdered(true, mine);
    OfMarketMeans(rows, m);
    forall r ensures r in s <==> r in mine {
      assert r in s <==> r in multiset(s);
      assert r in mine <==> r in multiset(mine);
    }
    forall i | 0 < i < |s|
      ensures s[i - 1].sortIndex < s[i].sortIndex
           || (s[i - 1].sortIndex == s[i].sortIndex && s[i - 1].createdAt <= s[i].createdAt)
    {
      assert NotAfter(true, s[i - 1], s[i]);
    }
  }

  // ------------------------------------------------------------------------
  // Update
  // ------------------------------------------------------------------------

  /** The row after an update: the note and the index that were given, the time of the update, all else as it was. */
  predicate Updated(before: Row, after: Row, op: Op)
    requires op.Update?
  {
    && after.note == (if op.newNote.Some? then op.newNote.value else before.note)
    && after.sortIndex == (if op.newIndex.Some? then op.newIndex.value else before.sortIndex)
    && after.updatedAt == op.now
    && after.id == before.id && after.market == before.market && after.symbol == before.symbol
    && after.details == before.details && after.createdAt == before.createdAt
  }

  predicate UpdateAccepted(op: Op)
    requires op.Update?
  {
    (op.newNote.Some? || op.newIndex.Some?) && (op.newNote.Some? ==> |op.newNote.value| <= 280)
  }

  /**
   An update is refused when it changes nothing or its note is longer than 280, and when no row has the id; otherwise
   the reply and the market's listing show the updated row, and no other row changes.
   */
  lemma UpdateExactly(rows: seq<Row>, op: Op)
    requires op.Update?
    ensures var out := MemoryStep(rows, op);
            && (out.reply == Failed(BadRequest) <==> !UpdateAccepted(op))
            && (out.reply == Failed(NotFound) <==> UpdateAccepted(op) && !HasId(rows, op.id))
            && (out.reply.Failed? ==> out.state == rows)
            && (out.reply.Failed? || (out.reply.Item? && HasId(rows, op.id)))
  {}

  lemma UpdateShows(rows: seq<Row>, op: Op, other: string)
    requires op.Update? && MemoryStep(rows, op).reply.Item?
    ensures var out := MemoryStep(rows, op);
            var row := out.reply.row;
            && HasId(rows, op.id) && Updated(Get(rows, op.id), row, op)
            && row in MemoryStep(out.state, List(row.market)).reply.rows
            && |out.state| == |rows| && (HasId(out.state, other) <==> HasId(rows, other))
            && (HasId(rows, other) ==> Get(out.state, other) == if other == op.id then row else Get(rows, other))
  {
    var out := MemoryStep(rows, op);
    PatchKeepsIds(rows, op.id, UpdatePatch(op), other);
    PatchKeepsIds(rows, op.id, UpdatePatch(op), op.id);
    HasIdMeans(out.state, op.id);
    ListingExactly(out.state, out.reply.row.market);
  }

  lemma {:induction false} FoundOnShelf(shelves: seq<Shelf>, id: string, p: Patch, other: string)
    requires AnyHasId(shelves, id)
    ensures AnyHasId(PatchShelves(shelves, id, p), id)
    ensures GetAny(PatchShelves(shelves, id, p), id) == Patched(GetAny(shelves, id), p)
    ensures AnyHasId(PatchShelves(shelves, id, p), other) <==> AnyHasId(shelves, other)
    ensures AnyHasId(shelves, other) && other != id ==>
              GetAny(PatchShelves(shelves, id, p), other) == GetAny(shelves, other)
  {
    PatchKeepsIds(shelves[0].rows, id, p, other);
    PatchKeepsIds(shelves[0].rows, id, p, id);
    if !HasId(shelves[0].rows, id) {
      FoundOnShelf(shelves[1..], id, p, other);
      assert PatchShelves(shelves, id, p)[1..] == PatchShelves(shelves[1..], id, p);
    } else {
      assert PatchShelves(shelves, id, p)[1..] == shelves[1..];
    }
  }

  /** The same in Redis, in any state. */
  lemma RedisUpdateShows(shelves: seq<Shelf>, op: Op, other: string)
    requires op.Update? && RedisStep(shelves, op).reply.Item?
    ensures var out := RedisStep(shelves, op);
            && UpdateAccepted(op) && AnyHasId(shelves, op.id)
            && Updated(GetAny(shelves, op.id), out.reply.row, op)
            && (AnyHasId(out.state, other) <==> AnyHasId(shelves, other))
            && (AnyHasId(shelves, other) ==>
                  GetAny(out.state, other) == if other == op.id then out.reply.row else GetAny(shelves, other))
  {
    FoundOnShelf(shelves, op.id, UpdatePatch(op), other);
  }

  // ------------------------------------------------------------------------
  // Creation and deletion
  // ------------------------------------------------------------------------

  /** Creation is refused for these reasons, in this order, and for no other. */
  lemma CreateExactly(rows: seq<Row>, op: Op)
    requires op.Create?
    ensures var out := MemoryStep(rows, op);
            var taken := exists r :: r in rows && r.market == op.market && r.symbol == op.symbol;
            var long := |op.note| > 280;
            && (out.reply == Failed(BadRequest) <==> long)
            && (out.reply == Failed(UnknownSymbol) <==> !long && !op.known)
            && (out.reply == Failed(Duplicate) <==> !long && op.known && taken)
            && (out.reply == Failed(LimitReached) <==> !long && op.known && !taken && |rows| >= 50)
            && (out.reply.Failed? ==> out.state == rows && out.reply != Failed(NotFound))
            && (out.reply.Failed? || (out.reply.Item? && out.state == rows + [out.reply.row]))
  {
    var mine := OfMarket(rows, op.market);
    OfMarketMeans(rows, op.market);
    HasSymbolMeans(mine, op.symbol);
    if HasSymbol(mine, op.symbol) {
      var i :| 0 <= i < |mine| && mine[i].symbol == op.symbol;
      assert mine[i] in mine;
    }
  }

  lemma {:induction false} NextIndexIsTight(rows: seq<Row>)
    ensures if rows == [] then NextIndex(rows) == 0 else exists r :: r in rows && r.sortIndex == NextIndex(rows) - 1
  {
    if |rows| > 1 {
      var n := |rows| - 1;
      NextIndexIsTight(rows[..n]);
      var r :| r in rows[..n] && r.sortIndex == NextIndex(rows[..n]) - 1;
      assert r in rows && rows[n] in rows;
    } else if |rows| == 1 {
      assert rows[0] in rows;
    }
  }

  /** A new row has the fields given, one time stamp, and the index just past the largest of its market. */
  lemma CreatedRow(rows: seq<Row>, op: Op)
    requires op.Create? && MemoryStep(rows, op).reply.Item?
    ensures var r := MemoryStep(rows, op).reply.row;
            && r.id == op.id && r.market == op.market && r.symbol == op.symbol && r.details == op.details
            && r.note == op.note && r.createdAt == r.updatedAt == op.now
            && (forall x :: x in rows && x.market == op.market ==> x.sortIndex < r.sortIndex)
            && (if exists x :: x in rows && x.market == op.market
                then exists x :: x in rows && x.market == op.market && x.sortIndex == r.sortIndex - 1
                else r.sortIndex == 0)
  {
    var mine := OfMarket(rows, op.market);
    OfMarketMeans(rows, op.market);
    NextIndexIsTight(mine);
    forall x | x in rows && x.market == op.market ensures x.sortIndex < NextIndex(mine) {
      assert x in mine;
    }
    if mine != [] { assert mine[0] in rows && mine[0].market == op.market; }
  }

  lemma {:induction false} DropMeans(rows: seq<Row>, id: string)
    ensures forall r :: r in DropRow(rows, id) <==> r in rows && r.id != id
  {
    if rows != [] { DropMeans(rows[1..], id); }
  }

  /** A deletion removes the rows with the id and no other, or fails because there is none. */
  lemma DeleteExactly(rows: seq<Row>, id: string)
    ensures var out := MemoryStep(rows, Delete(id));
            && (out.reply == Deleted <==> exists r :: r in rows && r.id == id)
            && (out.reply == Deleted || out.reply == Failed(NotFound))
            && forall r :: r in out.state <==> r in rows && r.id != id
  {
    HasIdMeans(rows, id);
    DropMeans(rows, id);
    if HasId(rows, id) { assert Get(rows, id) in rows; }
  }
}
