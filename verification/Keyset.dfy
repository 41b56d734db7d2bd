/**
 Keyset paging of the application list and the revenue ledger: a page at a time
 below the (timestamp, tie-breaker) of the last row seen
 (apps/api/src/domains/applications/application.repository.ts,
 apps/api/src/domains/revenue/revenue.repository.ts,
 apps/api/src/shared/utils/pagination.ts).
 The columns hold microseconds, which is what `major` counts; the cursor, made
 of an ISO string, keeps whole milliseconds.
 */
module Keyset {
  import opened Paging
  import opened Wrappers

  /** buildCursor after toISOString. */
  function Truncate(k: Key): (c: Key)
    ensures c == k || Less(c, k)
  {
    Key(k.major - k.major % 1000, k.minor)
  }

  /** The repository's `list`: one row more than the page, so that the caller can tell whether there is a next one. */
  function List(view: seq<Row>, p: Row -> bool, cursor: Option<Key>, limit: nat): seq<Row> {
    Take(Where(view, p, cursor), limit + 1)
  }

  datatype Page = Page(data: seq<Row>, next: Option<Key>)

  /** `paginate`: trim the extra row and hand out the cursor of the last one kept. */
  function Paginate(rows: seq<Row>, limit: nat): Page {
    if |rows| > limit then
      Page(rows[..limit], if limit == 0 then None else Some(Truncate(rows[limit - 1].key)))
    else Page(rows, None)
  }

  /**
   A page holds as many of the matching rows below the cursor as there are, up
   to the limit, and says exactly then where to go on when there are more: below
   its last row, the time cut to the millisecond.
   */
  lemma WhatAPageHolds(view: seq<Row>, p: Row -> bool, cursor: Option<Key>, limit: nat)
    requires limit >= 1
    ensures var page, rows := Paginate(List(view, p, cursor, limit), limit), Where(view, p, cursor);
      && page.data <= rows && |page.data| == (if |rows| < limit then |rows| else limit)
      && (page.next.Some? <==> limit < |rows|)
      && (page.next.Some? ==>
           var last, next := page.data[limit - 1].key, page.next.value;
           next.major % 1_000 == 0 && next.major <= last.major < next.major + 1_000 && next.minor == last.minor)
  {
    hide Where;
  }

  // ---------------------------------------------------------------- following the cursor

  /** Every page to the last, over a table that does not change. */
  function Follow(view: seq<Row>, p: Row -> bool, cursor: Option<Key>, limit: nat): seq<Row>
    requires limit >= 1
    decreases |Where(view, p, cursor)|
  {
    var page := Paginate(List(view, p, cursor, limit), limit);
    if page.next.None? then page.data
    else
      NextPageIsShorter(view, p, cursor, limit);
      page.data + Follow(view, p, page.next, limit)
  }

  lemma NextPageIsShorter(view: seq<Row>, p: Row -> bool, cursor: Option<Key>, limit: nat)
    requires limit >= 1
    ensures var page := Paginate(List(view, p, cursor, limit), limit);
      page.next.Some? ==> |Where(view, p, page.next)| < |Where(view, p, cursor)|
  {
    hide Where;
    var rows := Where(view, p, cursor);
    if |rows| > limit {
      var last := rows[limit - 1];
      WhereHolds(view, p, cursor, last);
      StricterKeepsFewer(view, p, cursor, last, Truncate(last.key));
    }
  }

  lemma FollowUnfolds(view: seq<Row>, p: Row -> bool, cursor: Option<Key>, limit: nat)
    requires limit >= 1
    ensures var rows := Where(view, p, cursor);
      if |rows| <= limit then Follow(view, p, cursor, limit) == rows
      else
        var k := Truncate(rows[limit - 1].key);
        && Follow(view, p, cursor, limit) == rows[..limit] + Follow(view, p, Some(k), limit)
        && |Where(view, p, Some(k))| < |rows|
  {
    hide Where, Truncate;
    NextPageIsShorter(view, p, cursor, limit);
  }

  /**
   The pages, end to end, are the filtered list with no row skipped, repeated
   or moved, exactly when at no page's end the next row shares the cursor's key
   or its millisecond; whatever the page size.  Otherwise rows are lost, never
   repeated.
   */
  lemma {:induction false} PagesConcatenate(view: seq<Row>, p: Row -> bool, cursor: Option<Key>, limit: nat)
    requires limit >= 1 && Sorted(view)
    ensures Follow(view, p, cursor, limit) == Where(view, p, cursor)
      <==> NoSplit(Where(view, p, cursor), limit, Truncate)
    ensures |Follow(view, p, cursor, limit)| <= |Where(view, p, cursor)|
    decreases |Where(view, p, cursor)|
  {
    FollowUnfolds(view, p, cursor, limit);
    hide Where, Follow, Sorted, Truncate;
    var rows := Where(view, p, cursor);
    if |rows| > limit {
      var k := Truncate(rows[limit - 1].key);
      var m := AfterPage(view, p, cursor, limit, k);
      PagesConcatenate(view, p, Some(k), limit);
      PageGlues(rows, Follow(view, p, Some(k), limit), limit, m);
    }
  }

  /** Every page size reproduces the filtered list if and only if each of its rows lies below the truncated key of the one before. */
  lemma WhenEveryPageSizeIsComplete(view: seq<Row>, p: Row -> bool)
    requires Sorted(view)
    ensures (forall limit: nat :: limit >= 1 ==> Follow(view, p, None, limit) == Where(view, p, None))
      <==> Separated(Where(view, p, None), Truncate)
  {
    hide Where, Follow, Truncate, Sorted;
    var rows := Where(view, p, None);
    if Separated(rows, Truncate) {
      forall limit: nat | limit >= 1 ensures Follow(view, p, None, limit) == rows {
        SeparatedNeverSplit(rows, limit, Truncate);
        PagesConcatenate(view, p, None, limit);
      }
    } else {
      var i :| 0 < i < |rows| && !Less(rows[i].key, Truncate(rows[i - 1].key));
      PagesConcatenate(view, p, None, i);
      assert !NoSplit(rows, i, Truncate);
    }
  }

  predicate WholeMillis(rows: seq<Row>) { forall i :: 0 <= i < |rows| ==> rows[i].key.major % 1000 == 0 }

  /** A unique key with times of whole milliseconds is enough. */
  lemma UniqueKeysPageCompletely(view: seq<Row>, p: Row -> bool, limit: nat)
    requires limit >= 1 && StrictlySorted(view) && WholeMillis(view)
    ensures Follow(view, p, None, limit) == Where(view, p, None)
  {
    WhereKeepsOrder(view, p, None);
    var rows := Where(view, p, None);
    hide Where, Follow;
    forall i | 0 < i < |rows| ensures Less(rows[i].key, Truncate(rows[i - 1].key)) {
      WhereHolds(view, p, None, rows[i - 1]);
    }
    SeparatedNeverSplit(rows, limit, Truncate);
    assert Sorted(view);
    PagesConcatenate(view, p, None, limit);
  }

  /** Pages of one row each do not add up to the list. */
  predicate LosesRows(view: seq<Row>, p: Row -> bool) { Follow(view, p, None, 1) != Where(view, p, None) }

  lemma TwoRows(a: Row, b: Row)
    requires !Less(a.key, b.key) && !Less(b.key, Truncate(a.key))
    ensures Sorted([a, b]) && LosesRows([a, b], Every())
  {
    var view := [a, b];
    assert view[1..] == [b] && [b][1..] == [];
    assert Where([b], Every(), None) == [b];
    assert Where(view, Every(), None) == [a] + [b];
    assert !NoSplit(Where(view, Every(), None), 1, Truncate);
    PagesConcatenate(view, Every(), None, 1);
  }

  /** Two ledger rows may share timestamp and idempotency key (another partner, another source); then a page can lose one. */
  lemma SharedKeysCanBeLost(k: Key)
    requires k.major % 1000 == 0
    ensures Sorted([Row(k, 0), Row(k, 1)]) && WholeMillis([Row(k, 0), Row(k, 1)])
    ensures LosesRows([Row(k, 0), Row(k, 1)], Every())
  {
    TwoRows(Row(k, 0), Row(k, 1));
    hide LosesRows;
  }

  /** And so can one of two rows with keys of their own, a microsecond apart in one millisecond. */
  lemma SharedMillisecondsCanBeLost(t: int)
    requires (t + 1) % 1000 != 0
    ensures StrictlySorted([Row(Key(t + 1, 1), 0), Row(Key(t, 2), 1)])
    ensures LosesRows([Row(Key(t + 1, 1), 0), Row(Key(t, 2), 1)], Every())
  {
    TwoRows(Row(Key(t + 1, 1), 0), Row(Key(t, 2), 1));
    hide LosesRows;
  }

  // ---------------------------------------------------------------- a table that moves

  /**
   The first n pages when the table changes between requests; the flag says
   whether the last of them was the end.
   */
  function FollowMoving(tables: nat -> seq<Row>, p: Row -> bool, i: nat, cursor: Option<Key>, limit: nat, n: nat)
    : (seq<Row>, bool)
    requires limit >= 1
    decreases n
  {
    if n == 0 then ([], false)
    else
      var page := Paginate(List(tables(i), p, cursor, limit), limit);
      if page.next.None? then (page.data, true)
      else
        var rest := FollowMoving(tables, p, i + 1, page.next, limit, n - 1);
        (page.data + rest.0, rest.1)
  }

  function Rest(view: seq<Row>): nat -> seq<Row> { _ => view }

  /** Over a table at rest such a walk ends, and is the walk that follows the cursor to the end. */
  lemma {:induction false} WalksAtRestEnd(view: seq<Row>, p: Row -> bool, i: nat, cursor: Option<Key>, limit: nat, n: nat)
    requires limit >= 1 && n > |Where(view, p, cursor)|
    ensures FollowMoving(Rest(view), p, i, cursor, limit, n) == (Follow(view, p, cursor, limit), true)
    decreases n
  {
    hide Where, List, Paginate;
    var page := Paginate(List(view, p, cursor, limit), limit);
    if page.next.Some? {
      NextPageIsShorter(view, p, cursor, limit);
      WalksAtRestEnd(view, p, i + 1, page.next, limit, n - 1);
    }
  }

  /** One page of a table with a unique key: its rows, and what it leaves for the next. */
  lemma PageCovers(view: seq<Row>, p: Row -> bool, cursor: Option<Key>, limit: nat)
    requires limit >= 1 && StrictlySorted(view)
    ensures var page := Paginate(List(view, p, cursor, limit), limit);
      && StrictlySorted(page.data)
      && (forall r :: r in page.data ==> r in view && p(r) && Beyond(cursor, r))
      && (page.next.Some? ==> Beyond(cursor, Row(page.next.value, 0)))
      && (page.next.Some? ==> forall r :: r in page.data ==> !Less(r.key, page.next.value))
      && (WholeMillis(view) ==> forall r :: r in view && p(r) && Beyond(cursor, r) ==>
           r in page.data || (page.next.Some? && Beyond(page.next, r)))
  {
    hide Where;
    var rows := Where(view, p, cursor);
    var page := Paginate(List(view, p, cursor, limit), limit);
    WhereKeepsOrder(view, p, cursor);
    HeadCovers(rows, limit);
    assert page.data == Take(rows, limit);
    if |rows| > limit {
      WhereHolds(view, p, cursor, rows[limit - 1]);
    }
    hide StrictlySorted;
    forall r | r in page.data
      ensures r in view && p(r) && Beyond(cursor, r) && (page.next.Some? ==> !Less(r.key, page.next.value))
    {
      WhereHolds(view, p, cursor, r);
    }
    forall r | WholeMillis(view) && r in view && p(r) && Beyond(cursor, r)
      ensures r in page.data || (page.next.Some? && Beyond(page.next, r))
    {
      WhereHolds(view, p, cursor, r);
    }
  }

  /**
   Paging is stable: over a table whose rows come and go between requests,
   keys never repeat, and where times are whole milliseconds a walk that has
   reached the end has returned every matching row that was there all along.
   */
  lemma {:induction false} PagingIsStable(
    tables: nat -> seq<Row>, p: Row -> bool, i: nat, cursor: Option<Key>, limit: nat, n: nat)
    requires limit >= 1 && forall j: nat :: StrictlySorted(tables(j))
    ensures var (got, ended) := FollowMoving(tables, p, i, cursor, limit, n);
      && StrictlySorted(got)
      && (forall r :: r in got ==> p(r) && Beyond(cursor, r) && exists j: nat :: r in tables(j))
      && ((forall j: nat :: WholeMillis(tables(j))) && ended ==>
           forall r :: (forall j: nat :: r in tables(j)) && p(r) && Beyond(cursor, r) ==> r in got)
    decreases n
  {
    hide List, Paginate, Where, StrictlySorted, WholeMillis;
    if n == 0 {
      assert StrictlySorted([]) by { NothingIsSorted(); }
    } else {
      PageCovers(tables(i), p, cursor, limit);
      var page := Paginate(List(tables(i), p, cursor, limit), limit);
      if page.next.Some? {
        PagingIsStable(tables, p, i + 1, page.next, limit, n - 1);
        PagesInOrder(page.data, FollowMoving(tables, p, i + 1, page.next, limit, n - 1).0, page.next.value);
      }
    }
  }

  lemma NothingIsSorted()
    ensures StrictlySorted([])
  {
  }
}
