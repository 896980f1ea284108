/** The two watchlist backends are one store, up to how they count the limit. */
module WatchlistTheorems {
  import opened Wrappers
  import opened Watchlist

  // ------------------------------------------------------------------------
  // Ids
  // ------------------------------------------------------------------------

  predicate UniqueIds(rows: seq<Row>) {
    rows == [] || (!HasId(rows[1..], rows[0].id) && UniqueIds(rows[1..]))
  }

  predicate UniqueSymbols(rows: seq<Row>) {
    rows == [] || (!HasSymbol(rows[1..], rows[0].symbol) && UniqueSymbols(rows[1..]))
  }

  lemma {:induction false} HasIdInSet(rows: seq<Row>, id: string)
    ensures HasId(rows, id) <==> id in IdSet(rows)
  {
    if rows != [] { HasIdInSet(rows[1..], id); }
  }

  lemma {:induction false} MarketHasId(rows: seq<Row>, m: string, id: string)
    ensures HasId(OfMarket(rows, m), id) ==> HasId(rows, id)
    ensures HasId(rows, id) && Get(rows, id).market == m ==>
              HasId(OfMarket(rows, m), id) && Get(OfMarket(rows, m), id) == Get(rows, id)
    ensures UniqueIds(rows) && HasId(OfMarket(rows, m), id) ==> Get(rows, id).market == m
  {
    if rows != [] {
      MarketHasId(rows[1..], m, id);
      if rows[0].market == m {
        assert OfMarket(rows, m)[1..] == OfMarket(rows[1..], m);
      }
    }
  }

  lemma {:induction false} MarketUnique(rows: seq<Row>, m: string)
    requires UniqueIds(rows)
    ensures UniqueIds(OfMarket(rows, m))
  {
    if rows != [] {
      MarketUnique(rows[1..], m);
      if rows[0].market == m {
        assert OfMarket(rows, m)[1..] == OfMarket(rows[1..], m);
        MarketHasId(rows[1..], m, rows[0].id);
      }
    }
  }

  lemma {:induction false} MarketAppend(rows: seq<Row>, r: Row, m: string)
    ensures OfMarket(rows + [r], m) == if r.market == m then OfMarket(rows, m) + [r] else OfMarket(rows, m)
  {
    if rows != [] {
      MarketAppend(rows[1..], r, m);
      assert (rows + [r])[1..] == rows[1..] + [r];
    }
  }

  lemma {:induction false} MarketSize(rows: seq<Row>, m: string)
    ensures |OfMarket(rows, m)| <= |rows|
  {
    if rows != [] { MarketSize(rows[1..], m); }
  }

  // Patching and dropping commute with looking at one market.

  lemma {:induction false} PatchAbsent(rows: seq<Row>, id: string, p: Patch)
    requires !HasId(rows, id)
    ensures PatchRow(rows, id, p) == rows && DropRow(rows, id) == rows
  {
    if rows != [] { PatchAbsent(rows[1..], id, p); }
  }

  lemma {:induction false} PatchMarket(rows: seq<Row>, id: string, p: Patch, m: string)
    requires UniqueIds(rows)
    ensures OfMarket(PatchRow(rows, id, p), m) == PatchRow(OfMarket(rows, m), id, p)
  {
    if rows != [] {
      var rest, mine := rows[1..], OfMarket(rows[1..], m);
      PatchMarket(rest, id, p, m);
      MarketHasId(rest, m, id);
      if rows[0].market == m {
        assert OfMarket(rows, m)[1..] == mine;
      } else if rows[0].id == id {
        PatchAbsent(mine, id, p);
      }
      assert PatchRow(rows, id, p)[1..] == if rows[0].id == id then rest else PatchRow(rest, id, p);
    }
  }

  lemma {:induction false} DropMarket(rows: seq<Row>, id: string, m: string)
    ensures OfMarket(DropRow(rows, id), m) == DropRow(OfMarket(rows, m), id)
  {
    if rows != [] {
      DropMarket(rows[1..], id, m);
      if rows[0].market == m {
        assert OfMarket(rows, m)[1..] == OfMarket(rows[1..], m);
      }
      if rows[0].id != id {
        assert DropRow(rows, id)[1..] == DropRow(rows[1..], id);
      }
    }
  }

  lemma {:induction false} PatchKeepsIds(rows: seq<Row>, id: string, p: Patch, other: string)
    ensures HasId(PatchRow(rows, id, p), other) <==> HasId(rows, other)
    ensures HasSymbol(PatchRow(rows, id, p), other) <==> HasSymbol(rows, other)
    ensures HasId(rows, other) && other != id ==> Get(PatchRow(rows, id, p), other) == Get(rows, other)
    ensures HasId(rows, id) ==>
              HasId(PatchRow(rows, id, p), id) && Get(PatchRow(rows, id, p), id) == Patched(Get(rows, id), p)
  {
    if rows != [] {
      PatchKeepsIds(rows[1..], id, p, other);
      assert PatchRow(rows, id, p)[1..] == if rows[0].id == id then rows[1..] else PatchRow(rows[1..], id, p);
    }
  }

  lemma {:induction false} PatchKeepsUnique(rows: seq<Row>, id: string, p: Patch)
    ensures UniqueIds(PatchRow(rows, id, p)) <==> UniqueIds(rows)
    ensures UniqueSymbols(PatchRow(rows, id, p)) <==> UniqueSymbols(rows)
    ensures IdSet(PatchRow(rows, id, p)) == IdSet(rows)
  {
    if rows != [] {
      PatchKeepsUnique(rows[1..], id, p);
      PatchKeepsIds(rows[1..], id, p, rows[0].id);
      PatchKeepsIds(rows[1..], id, p, rows[0].symbol);
      assert PatchRow(rows, id, p)[1..] == if rows[0].id == id then rows[1..] else PatchRow(rows[1..], id, p);
    }
  }

  lemma {:induction false} DropKeeps(rows: seq<Row>, id: string, other: string)
    ensures HasId(DropRow(rows, id), other) ==> HasId(rows, other)
    ensures HasSymbol(DropRow(rows, id), other) ==> HasSymbol(rows, other)
  {
    if rows != [] {
      DropKeeps(rows[1..], id, other);
      if rows[0].id != id { assert DropRow(rows, id)[1..] == DropRow(rows[1..], id); }
    }
  }

  lemma {:induction false} DropKeepsUnique(rows: seq<Row>, id: string)
    ensures UniqueIds(rows) ==> UniqueIds(DropRow(rows, id))
    ensures UniqueSymbols(rows) ==> UniqueSymbols(DropRow(rows, id))
    ensures IdSet(DropRow(rows, id)) <= IdSet(rows)
  {
    if rows != [] {
      DropKeepsUnique(rows[1..], id);
      if rows[0].id != id {
        DropKeeps(rows[1..], id, rows[0].id);
        DropKeeps(rows[1..], id, rows[0].symbol);
        assert DropRow(rows, id)[1..] == DropRow(rows[1..], id);
      }
    }
  }

  lemma {:induction false} AppendUnique(rows: seq<Row>, r: Row)
    ensures UniqueIds(rows) && !HasId(rows, r.id) ==> UniqueIds(rows + [r])
    ensures UniqueSymbols(rows) && !HasSymbol(rows, r.symbol) ==> UniqueSymbols(rows + [r])
    ensures IdSet(rows + [r]) == IdSet(rows) + {r.id}
  {
    if rows != [] {
      AppendUnique(rows[1..], r);
      AppendHas(rows[1..], r, rows[0].id);
      AppendHas(rows[1..], r, rows[0].symbol);
      assert (rows + [r])[1..] == rows[1..] + [r];
    }
  }

  lemma {:induction false} AppendHas(rows: seq<Row>, r: Row, x: string)
    ensures HasId(rows + [r], x) <==> HasId(rows, x) || r.id == x
    ensures HasSymbol(rows + [r], x) <==> HasSymbol(rows, x) || r.symbol == x
  {
    if rows != [] {
      AppendHas(rows[1..], r, x);
      assert (rows + [r])[1..] == rows[1..] + [r];
    }
  }

  lemma {:induction false} RenumberKeeps(rows: seq<Row>, ids: seq<string>, now: int)
    ensures UniqueIds(Renumber(rows, ids, now)) <==> UniqueIds(rows)
    ensures UniqueSymbols(Renumber(rows, ids, now)) <==> UniqueSymbols(rows)
    ensures IdSet(Renumber(rows, ids, now)) == IdSet(rows)
  {
    if ids != [] {
      var n := |ids| - 1;
      RenumberKeeps(rows, ids[..n], now);
      PatchKeepsUnique(Renumber(rows, ids[..n], now), ids[n], IndexPatch(n, now));
    }
  }

  lemma {:induction false} RenumberMarket(rows: seq<Row>, ids: seq<string>, now: int, m: string)
    requires UniqueIds(rows)
    ensures OfMarket(Renumber(rows, ids, now), m) == Renumber(OfMarket(rows, m), ids, now)
  {
    if ids != [] {
      var n := |ids| - 1;
      RenumberMarket(rows, ids[..n], now, m);
      RenumberKeeps(rows, ids[..n], now);
      PatchMarket(Renumber(rows, ids[..n], now), ids[n], IndexPatch(n, now), m);
    }
  }

  /** Renumbering ids that are not among the rows does nothing. */
  lemma {:induction false} RenumberForeign(rows: seq<Row>, ids: seq<string>, now: int)
    requires forall i :: 0 <= i < |ids| ==> !HasId(rows, ids[i])
    ensures Renumber(rows, ids, now) == rows
  {
    if ids != [] {
      var n := |ids| - 1;
      RenumberForeign(rows, ids[..n], now);
      PatchAbsent(rows, ids[n], IndexPatch(n, now));
    }
  }

  // ------------------------------------------------------------------------
  // What renumbering does to each row
  // ------------------------------------------------------------------------

  lemma {:induction false} InElements(ids: seq<string>, i: nat)
    requires i < |ids|
    ensures ids[i] in Elements(ids)
  {
    if i < |ids| - 1 { InElements(ids[..|ids| - 1], i); }
  }

  lemma {:induction false} ElementsAre(ids: seq<string>, x: string)
    requires x in Elements(ids)
    ensures exists i :: 0 <= i < |ids| && ids[i] == x
  {
    var n := |ids| - 1;
    if x != ids[n] {
      ElementsAre(ids[..n], x);
      var i :| 0 <= i < n && ids[..n][i] == x;
      assert ids[i] == x;
    }
  }

  lemma {:induction false} RenumberedRow(rows: seq<Row>, ids: seq<string>, now: int, id: string)
    requires HasId(rows, id)
    ensures HasId(Renumber(rows, ids, now), id)
    ensures id !in Elements(ids) ==> Get(Renumber(rows, ids, now), id) == Get(rows, id)
  {
    if ids != [] {
      var n := |ids| - 1;
      RenumberedRow(rows, ids[..n], now, id);
      PatchKeepsIds(Renumber(rows, ids[..n], now), ids[n], IndexPatch(n, now), id);
    }
  }

  lemma {:induction false} RenumberedAt(rows: seq<Row>, ids: seq<string>, now: int, i: nat)
    requires i < |ids| && NoRepeats(ids) && HasId(rows, ids[i])
    ensures HasId(Renumber(rows, ids, now), ids[i])
    ensures Get(Renumber(rows, ids, now), ids[i]) == Patched(Get(rows, ids[i]), IndexPatch(i, now))
  {
    var n := |ids| - 1;
    var sofar := Renumber(rows, ids[..n], now);
    if i < n {
      RenumberedAt(rows, ids[..n], now, i);
      InElements(ids[..n], i);
      PatchKeepsIds(sofar, ids[n], IndexPatch(n, now), ids[i]);
    } else {
      RenumberedRow(rows, ids[..n], now, ids[n]);
      PatchKeepsIds(sofar, ids[n], IndexPatch(n, now), ids[n]);
    }
  }

  /** The promised result of a reorder: the rows in the order of `ids`, only index and update time changed. */
  function InOrder(rows: seq<Row>, ids: seq<string>, now: int): (s: seq<Row>)
    requires forall i :: 0 <= i < |ids| ==> HasId(rows, ids[i])
    ensures |s| == |ids|
    ensures forall i :: 0 <= i < |ids| ==> s[i] == Get(rows, ids[i]).(sortIndex := i, updatedAt := now)
  {
    seq(|ids|, i requires 0 <= i < |ids| => Get(rows, ids[i]).(sortIndex := i, updatedAt := now))
  }

  lemma {:induction false} CollectedInOrder(rows: seq<Row>, ids: seq<string>, now: int)
    requires NoRepeats(ids) && forall i :: 0 <= i < |ids| ==> HasId(rows, ids[i])
    ensures Collected(rows, ids, now) == InOrder(rows, ids, now)
  {
    if ids != [] {
      var n := |ids| - 1;
      assert forall i :: 0 <= i < n ==> ids[..n][i] == ids[i];
      CollectedInOrder(rows, ids[..n], now);
      RenumberedRow(rows, ids[..n], now, ids[n]);
      assert InOrder(rows, ids, now) == InOrder(rows, ids[..n], now) + [InOrder(rows, ids, now)[n]];
    }
  }

  // ------------------------------------------------------------------------
  // Sorting
  // ------------------------------------------------------------------------

  ghost predicate Ascending(s: seq<Row>) {
    forall i :: 0 < i < |s| ==> s[i - 1].sortIndex < s[i].sortIndex
  }

  lemma {:induction false} AscendingSortsToItself(full: bool, s: seq<Row>)
    requires Ascending(s)
    ensures Sorted(full, s) == s
  {
    if s != [] {
      var n := |s| - 1;
      AscendingSortsToItself(full, s[..n]);
      assert s == s[..n] + [s[n]];
    }
  }

  lemma {:induction false} SortedMultiset(full: bool, rows: seq<Row>)
    ensures multiset(Sorted(full, rows)) == multiset(rows)
  {
    if rows != [] {
      var n := |rows| - 1;
      SortedMultiset(full, rows[..n]);
      InsertMultiset(full, Sorted(full, rows[..n]), rows[n]);
      assert rows == rows[..n] + [rows[n]];
    }
  }

  lemma {:induction false} InsertMultiset(full: bool, s: seq<Row>, r: Row)
    ensures multiset(Insert(full, s, r)) == multiset(s) + multiset{r}
  {
    var n := |s| - 1;
    if s != [] && !NotAfter(full, s[n], r) {
      InsertMultiset(full, s[..n], r);
      assert s == s[..n] + [s[n]];
    }
  }

  ghost predicate InSortOrder(full: bool, s: seq<Row>) {
    forall i :: 0 < i < |s| ==> NotAfter(full, s[i - 1], s[i])
  }

  lemma {:induction false} InsertOrdered(full: bool, s: seq<Row>, r: Row)
    requires InSortOrder(full, s)
    ensures InSortOrder(full, Insert(full, s, r))
    ensures var t := Insert(full, s, r); t[|s|] == r || (s != [] && t[|s|] == s[|s| - 1])
  {
    var n := |s| - 1;
    if s != [] && !NotAfter(full, s[n], r) {
      InsertOrdered(full, s[..n], r);
      var t := Insert(full, s[..n], r);
      assert Insert(full, s, r) == t + [s[n]];
    }
  }

  lemma {:induction false} SortedOrdered(full: bool, rows: seq<Row>)
    ensures InSortOrder(full, Sorted(full, rows))
  {
    if rows != [] {
      var n := |rows| - 1;
      SortedOrdered(full, rows[..n]);
      InsertOrdered(full, Sorted(full, rows[..n]), rows[n]);
    }
  }

  lemma {:induction false} LastIsLargest(full: bool, s: seq<Row>, i: nat)
    requires InSortOrder(full, s) && i < |s|
    ensures s[i].sortIndex <= s[|s| - 1].sortIndex
  {
    var n := |s| - 1;
    if i < n { LastIsLargest(full, s[..n], i); }
  }

  lemma {:induction false} AscendingBelow(s: seq<Row>, j: nat)
    requires Ascending(s) && j < |s|
    ensures j < |s| - 1 ==> s[j].sortIndex < s[|s| - 1].sortIndex
  {
    var n := |s| - 1;
    if j < n - 1 { AscendingBelow(s[..n], j); }
  }

  lemma LargestAgree(full: bool, s: seq<Row>, t: seq<Row>)
    requires Ascending(s) && InSortOrder(full, t) && multiset(s) == multiset(t) && s != [] && t != []
    ensures s[|s| - 1] == t[|t| - 1]
  {
    var n, m := |s| - 1, |t| - 1;
    assert s[n] in multiset(t) && t[m] in multiset(s);
    var i :| 0 <= i < |t| && t[i] == s[n];
    var j :| 0 <= j < |s| && s[j] == t[m];
    LastIsLargest(full, t, i);
    AscendingBelow(s, j);
  }

  lemma DropLast(s: seq<Row>)
    requires s != []
    ensures multiset(s[..|s| - 1]) == multiset(s) - multiset{s[|s| - 1]}
  {
    assert s == s[..|s| - 1] + [s[|s| - 1]];
  }

  /** Two orderings of the same rows agree when the keys of one are strictly ascending. */
  lemma {:induction false} OneOrder(full: bool, s: seq<Row>, t: seq<Row>)
    requires Ascending(s) && InSortOrder(full, t) && multiset(s) == multiset(t) && |s| == |t|
    ensures s == t
  {
    if s != [] {
      var n := |s| - 1;
      LargestAgree(full, s, t);
      DropLast(s);
      DropLast(t);
      OneOrder(full, s[..n], t[..n]);
      assert s == s[..n] + [s[n]] && t == t[..n] + [t[n]];
    }
  }

  // ------------------------------------------------------------------------
  // Rows as a set keyed by id
  // ------------------------------------------------------------------------

  lemma {:induction false} Multiplicity(rows: seq<Row>, r: Row)
    requires UniqueIds(rows)
    ensures multiset(rows)[r] == if HasId(rows, r.id) && Get(rows, r.id) == r then 1 else 0
  {
    if rows != [] {
      Multiplicity(rows[1..], r);
      assert rows == [rows[0]] + rows[1..];
    }
  }

  ghost predicate SameRowAt(a: seq<Row>, b: seq<Row>, id: string) {
    (HasId(a, id) <==> HasId(b, id)) && (HasId(a, id) && HasId(b, id) ==> Get(a, id) == Get(b, id))
  }

  lemma SameRows(a: seq<Row>, b: seq<Row>)
    requires UniqueIds(a) && UniqueIds(b) && forall id :: SameRowAt(a, b, id)
    ensures multiset(a) == multiset(b)
  {
    forall r: Row ensures multiset(a)[r] == multiset(b)[r] {
      Multiplicity(a, r);
      Multiplicity(b, r);
      assert SameRowAt(a, b, r.id);
    }
  }

  lemma {:induction false} InOrderHas(rows: seq<Row>, ids: seq<string>, now: int, id: string)
    requires NoRepeats(ids) && forall i :: 0 <= i < |ids| ==> HasId(rows, ids[i])
    ensures UniqueIds(InOrder(rows, ids, now))
    ensures HasId(InOrder(rows, ids, now), id) <==> id in Elements(ids)
  {
    if ids != [] {
      var n := |ids| - 1;
      assert forall i :: 0 <= i < n ==> ids[..n][i] == ids[i];
      InOrderHas(rows, ids[..n], now, id);
      InOrderHas(rows, ids[..n], now, ids[n]);
      var front, last := InOrder(rows, ids[..n], now), InOrder(rows, ids, now)[n];
      assert InOrder(rows, ids, now) == front + [last];
      AppendUnique(front, last);
      AppendHas(front, last, id);
    }
  }

  lemma {:induction false} GetAt(rows: seq<Row>, i: nat)
    requires i < |rows| && UniqueIds(rows)
    ensures HasId(rows, rows[i].id) && Get(rows, rows[i].id) == rows[i]
  {
    if i > 0 { GetAt(rows[1..], i - 1); }
  }

  /** Sorting the renumbered rows by index gives them in the requested order. */
  lemma RenumberSorts(full: bool, rows: seq<Row>, ids: seq<string>, now: int)
    requires UniqueIds(rows) && NoRepeats(ids) && Elements(ids) == IdSet(rows)
    ensures forall i :: 0 <= i < |ids| ==> HasId(rows, ids[i])
    ensures Sorted(full, Renumber(rows, ids, now)) == InOrder(rows, ids, now)
  {
    forall i | 0 <= i < |ids| ensures HasId(rows, ids[i]) {
      InElements(ids, i);
      HasIdInSet(rows, ids[i]);
    }
    var result, target := Renumber(rows, ids, now), InOrder(rows, ids, now);
    RenumberKeeps(rows, ids, now);
    InOrderHas(rows, ids, now, "");
    forall id ensures SameRowAt(result, target, id) {
      RenumberedHas(rows, ids, now, id);
    }
    SameRows(result, target);
    SortedMultiset(full, result);
    SortedOrdered(full, result);
    assert |multiset(target)| == |target| && |multiset(result)| == |result|;
    OneOrder(full, target, Sorted(full, result));
  }

  lemma RenumberedHas(rows: seq<Row>, ids: seq<string>, now: int, id: string)
    requires UniqueIds(rows) && NoRepeats(ids) && Elements(ids) == IdSet(rows)
    requires forall i :: 0 <= i < |ids| ==> HasId(rows, ids[i])
    ensures SameRowAt(Renumber(rows, ids, now), InOrder(rows, ids, now), id)
  {
    InOrderHas(rows, ids, now, id);
    RenumberKeeps(rows, ids, now);
    HasIdInSet(rows, id);
    HasIdInSet(Renumber(rows, ids, now), id);
    if id in Elements(ids) {
      ElementsAre(ids, id);
      var i :| 0 <= i < |ids| && ids[i] == id;
      RenumberedAt(rows, ids, now, i);
      GetAt(InOrder(rows, ids, now), i);
    }
  }
}
