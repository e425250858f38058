/** Listing calls page by page, by following cursors while the table changes between pages. */
module SpyPaging {
  import opened Bytes
  import opened SpyTables
  import opened CallOrder

  type Table = map<CallId, CallRow>

  const DEFAULT_QUERY_LIMIT: nat := 100
  const MAX_QUERY_LIMIT: nat := 500

  /** `queryLimit`; an undefined or non-finite value is None. */
  function QueryLimit(value: Option<real>): (limit: nat)
    ensures 1 <= limit <= MAX_QUERY_LIMIT
    ensures value.Some? && 1.0 <= value.value < MAX_QUERY_LIMIT as real ==>
      limit as real <= value.value < (limit + 1) as real
    ensures value.None? ==> limit == 100
    ensures value.Some? && value.value < 1.0 ==> limit == 1
    ensures value.Some? && value.value >= 500.0 ==> limit == 500
  {
    if value.None? then DEFAULT_QUERY_LIMIT
    else if value.value < 1.0 then 1
    else if value.value >= MAX_QUERY_LIMIT as real then MAX_QUERY_LIMIT
    else value.value.Floor
  }

  /** The keys the WHERE clause selects. */
  function Matching(calls: Table, filter: CallRow -> bool, cursor: Option<Key>): set<Key> {
    set id | id in calls && filter(calls[id]) && (cursor.None? || Before(KeyOf(calls, id), cursor.value))
      :: KeyOf(calls, id)
  }

  predicate Newest(keys: set<Key>, k: Key) {
    k in keys && forall x :: x in keys && x != k ==> Before(x, k)
  }

  lemma {:induction false} NewestExists(keys: set<Key>)
    requires keys != {}
    ensures exists k :: Newest(keys, k)
    decreases |keys|
  {
    hide Before;
    var k :| k in keys;
    if keys == {k} {
      assert Newest(keys, k);
    } else {
      NewestExists(keys - {k});
      var m :| Newest(keys - {k}, m);
      BeforeTotal(k, m);
      if Before(k, m) {
        assert Newest(keys, m);
      } else {
        forall x | x in keys && x != k && x != m ensures Before(x, k) { BeforeTransitive(x, m, k); }
        assert Newest(keys, k);
      }
    }
  }

  ghost function NewestOf(keys: set<Key>): (k: Key)
    requires keys != {}
    ensures Newest(keys, k)
  {
    NewestExists(keys);
    var k :| Newest(keys, k);
    k
  }

  /** ORDER BY started_at DESC, id DESC LIMIT n. */
  ghost function Query(keys: set<Key>, n: nat): seq<Key> {
    if n == 0 || keys == {} then []
    else [NewestOf(keys)] + Query(keys - {NewestOf(keys)}, n - 1)
  }

  datatype Page = Page(items: seq<Key>, nextCursor: Option<Key>)

  /** `paginatedCallSummaries`. */
  function Paginated(rows: seq<Key>, limit: nat): Page
    requires limit >= 1
  {
    if |rows| <= limit then Page(rows, None) else Page(rows[..limit], Some(rows[limit - 1]))
  }

  /** `listCallSummaries`: one row more than asked for tells whether there is a next page. */
  ghost function ListCallSummaries(calls: Table, filter: CallRow -> bool, limit: nat, cursor: Option<Key>): Page
    requires limit >= 1
  {
    Paginated(Query(Matching(calls, filter, cursor), limit + 1), limit)
  }

  /** A client: the items so far, and what it would ask next, if anything. */
  datatype Reader = Reader(items: seq<Key>, cursor: Option<Key>, finished: bool)

  /** Following the cursors: each page is read from the table of that moment. */
  ghost function Read(tables: seq<Table>, filter: CallRow -> bool, limit: nat): Reader
    requires limit >= 1
    decreases |tables|
  {
    if tables == [] then Reader([], None, false)
    else
      var n := |tables| - 1;
      var r := Read(tables[..n], filter, limit);
      if r.finished then r
      else
        var page := ListCallSummaries(tables[n], filter, limit, r.cursor);
        Reader(r.items + page.items, page.nextCursor, page.nextCursor.None?)
  }

  // ----- one query -----

  ghost predicate Descending(rows: seq<Key>) {
    forall i, j :: 0 <= i < j < |rows| ==> Before(rows[j], rows[i])
  }

  /** The rows are the newest keys there are: all of them, or `n` with the others before the last. */
  lemma {:induction false} QueryIsNewest(keys: set<Key>, n: nat)
    ensures var rows := Query(keys, n);
      && Descending(rows)
      && |rows| == (if n < |keys| then n else |keys|)
      && (forall i :: 0 <= i < |rows| ==> rows[i] in keys)
      && forall k, i :: k in keys && k !in rows && 0 <= i < |rows| ==> Before(k, rows[i])
  {
    hide Before;
    if n > 0 && keys != {} {
      var k := NewestOf(keys);
      QueryIsNewest(keys - {k}, n - 1);
      var rest := Query(keys - {k}, n - 1);
      assert Query(keys, n) == [k] + rest;
      assert |keys - {k}| == |keys| - 1;
      assert forall i :: 0 <= i < |rest| ==> rest[i] in keys && rest[i] != k;
    }
  }

  lemma {:induction false} QueryComplete(keys: set<Key>, n: nat)
    requires |keys| <= n
    ensures forall k :: k in keys ==> k in Query(keys, n)
  {
    if keys != {} {
      var k := NewestOf(keys);
      QueryComplete(keys - {k}, n - 1);
    }
  }

  predicate Below(k: Key, cursor: Option<Key>) {
    cursor.None? || Before(k, cursor.value)
  }

  lemma {:induction false} MatchingIs(calls: Table, filter: CallRow -> bool, cursor: Option<Key>, k: Key)
    ensures k in Matching(calls, filter, cursor) <==> k in Matching(calls, filter, None) && Below(k, cursor)
    ensures k in Matching(calls, filter, None) <==> k.id in calls && filter(calls[k.id]) && KeyOf(calls, k.id) == k
  {
    hide Before;
  }

  /** A page holds at most `limit` keys below the cursor, newest first, and has a next cursor exactly when
      there are more; a matching key it leaves out is below the next cursor, and a page without a next cursor
      leaves none out. */
  ghost predicate PageIs(calls: Table, filter: CallRow -> bool, limit: nat, cursor: Option<Key>, page: Page) {
    && Descending(page.items) && |page.items| <= limit
    && (page.nextCursor.Some? <==> |Matching(calls, filter, cursor)| > limit)
    && (forall i :: 0 <= i < |page.items| ==> page.items[i] in Matching(calls, filter, cursor))
    && (page.nextCursor.Some? ==> |page.items| == limit > 0 && page.nextCursor.value == page.items[limit - 1])
    && forall k :: k in Matching(calls, filter, cursor) && k !in page.items
         ==> page.nextCursor.Some? && Before(k, page.nextCursor.value)
  }

  lemma {:induction false} ListedPage(calls: Table, filter: CallRow -> bool, limit: nat, cursor: Option<Key>)
    requires limit >= 1
    ensures PageIs(calls, filter, limit, cursor, ListCallSummaries(calls, filter, limit, cursor))
  {
    hide Before; hide Query; hide Matching;
    var keys := Matching(calls, filter, cursor);
    var rows := Query(keys, limit + 1);
    QueryIsNewest(keys, limit + 1);
    if |rows| <= limit {
      QueryComplete(keys, limit + 1);
    } else {
      forall k | k in keys && k !in rows[..limit] ensures Before(k, rows[limit - 1]) {
        if k in rows { assert rows[limit] == k; }
      }
    }
  }

  // ----- the whole walk -----

  /** The items are below each other, and the cursor is the last of them. */
  ghost predicate Walked(r: Reader) {
    && Descending(r.items)
    && (r.cursor.Some? ==> r.items != [] && r.items[|r.items| - 1] == r.cursor.value)
    && (r.cursor.None? && !r.finished ==> r.items == [])
  }

  lemma {:induction false} ReadStep(r: Reader, calls: Table, filter: CallRow -> bool, limit: nat)
    requires limit >= 1 && Walked(r) && !r.finished
    ensures var page := ListCallSummaries(calls, filter, limit, r.cursor);
      Walked(Reader(r.items + page.items, page.nextCursor, page.nextCursor.None?))
  {
    hide Before; hide Matching; hide ListCallSummaries;
    var page := ListCallSummaries(calls, filter, limit, r.cursor);
    ListedPage(calls, filter, limit, r.cursor);
    if r.items != [] {
      var last := |r.items| - 1;
      forall i, j | 0 <= i <= last && 0 <= j < |page.items| ensures Before(page.items[j], r.items[i]) {
        MatchingIs(calls, filter, r.cursor, page.items[j]);
        if i < last { BeforeTransitive(page.items[j], r.items[last], r.items[i]); }
      }
    }
  }

  /** What is read is in strictly decreasing order, whatever happens to the table: so nothing is
      read twice. */
  lemma {:induction false} ReadDescends(tables: seq<Table>, filter: CallRow -> bool, limit: nat)
    requires limit >= 1
    ensures Walked(Read(tables, filter, limit))
    decreases |tables|
  {
    hide Walked; hide ListCallSummaries;
    if tables == [] {
      assert Walked(Reader([], None, false)) by { NothingWalked(); }
    } else {
      var n := |tables| - 1;
      ReadDescends(tables[..n], filter, limit);
      var r := Read(tables[..n], filter, limit);
      if !r.finished { ReadStep(r, tables[n], filter, limit); }
    }
  }

  lemma {:induction false} NothingWalked()
    ensures Walked(Reader([], None, false))
  {}

  ghost predicate AlwaysThere(tables: seq<Table>, filter: CallRow -> bool, k: Key) {
    forall i :: 0 <= i < |tables| ==> k in Matching(tables[i], filter, None)
  }

  /** A matching call that is in every table read, with an unchanged key, has been read, or is still
      ahead of the cursor; once the walk has finished, it has been read. */
  lemma {:induction false} NothingIsSkipped(tables: seq<Table>, filter: CallRow -> bool, limit: nat, k: Key)
    requires limit >= 1 && AlwaysThere(tables, filter, k)
    ensures var r := Read(tables, filter, limit); k in r.items || (!r.finished && Below(k, r.cursor))
    decreases |tables|
  {
    hide Before; hide Matching; hide ListCallSummaries;
    if tables != [] {
      var n := |tables| - 1;
      NothingIsSkipped(tables[..n], filter, limit, k);
      var r := Read(tables[..n], filter, limit);
      if !r.finished {
        ListedPage(tables[n], filter, limit, r.cursor);
        MatchingIs(tables[n], filter, r.cursor, k);
      }
    }
  }

  /** A walk that has not finished has read `limit` calls a page, all of them keys there were. */
  lemma {:induction false} FullPages(tables: seq<Table>, filter: CallRow -> bool, limit: nat, universe: set<Key>)
    requires limit >= 1 && forall i :: 0 <= i < |tables| ==> Matching(tables[i], filter, None) <= universe
    ensures var r := Read(tables, filter, limit);
      && (forall i :: 0 <= i < |r.items| ==> r.items[i] in universe)
      && (!r.finished ==> |r.items| == limit * |tables|)
    decreases |tables|
  {
    hide Before; hide Matching; hide ListCallSummaries;
    if tables != [] {
      var n := |tables| - 1;
      FullPages(tables[..n], filter, limit, universe);
      var r := Read(tables[..n], filter, limit);
      if !r.finished {
        var page := ListCallSummaries(tables[n], filter, limit, r.cursor);
        ListedPage(tables[n], filter, limit, r.cursor);
        forall i | 0 <= i < |page.items| ensures page.items[i] in universe {
          MatchingIs(tables[n], filter, r.cursor, page.items[i]);
        }
        OneMore(limit, n);
      }
    }
  }

  lemma {:induction false} OneMore(limit: nat, n: nat)
    ensures limit * (n + 1) == limit * n + limit
  {}

  lemma {:induction false} DistinctFit(items: seq<Key>, universe: set<Key>)
    requires Descending(items) && forall i :: 0 <= i < |items| ==> items[i] in universe
    ensures |items| <= |universe|
    decreases |items|
  {
    if items != [] {
      var n := |items| - 1;
      forall i | 0 <= i < n ensures items[i] != items[n] { BeforeAsymmetric(items[n], items[i]); }
      hide Before;
      DistinctFit(items[..n], universe - {items[n]});
    }
  }

  /** The walk ends: no later than when the pages asked for could hold every key there ever was. */
  lemma {:induction false} WalkEnds(tables: seq<Table>, filter: CallRow -> bool, limit: nat, universe: set<Key>)
    requires limit >= 1 && forall i :: 0 <= i < |tables| ==> Matching(tables[i], filter, None) <= universe
    requires limit * |tables| > |universe|
    ensures Read(tables, filter, limit).finished
  {
    hide Read; hide Matching;
    ReadDescends(tables, filter, limit);
    FullPages(tables, filter, limit, universe);
    DistinctFit(Read(tables, filter, limit).items, universe);
  }

  /** On a table that does not change, the walk reads exactly the matching calls. */
  lemma {:induction false} FixedTableIsReadWhole(calls: Table, filter: CallRow -> bool, limit: nat, pages: nat)
    requires limit >= 1 && limit * pages > |Matching(calls, filter, None)|
    ensures var r := Read(seq(pages, _ => calls), filter, limit);
      && r.finished && Descending(r.items)
      && forall k :: k in r.items <==> k in Matching(calls, filter, None)
  {
    hide Read; hide Matching; hide Before;
    var tables, all := seq(pages, _ => calls), Matching(calls, filter, None);
    WalkEnds(tables, filter, limit, all);
    ReadDescends(tables, filter, limit);
    FullPages(tables, filter, limit, all);
    forall k | k in all ensures k in Read(tables, filter, limit).items { NothingIsSkipped(tables, filter, limit, k); }
  }
}
