/**
 Pages of a list in descending key order: what a cursor leaves of it, and what
 a page covers.  The repositories' lists (module Keyset) and the offboarding
 archive (module Archive) page this way.
 */
module Paging {
  import opened Wrappers

  /** major is the leading column, a timestamp say; minor the tie-breaker, as its rank in the database's order. */
  datatype Key = Key(major: int, minor: int)

  datatype Row = Row(key: Key, content: nat)

  /** No filter at all. */
  function Every(): Row -> bool { _ => true }

  predicate Less(a: Key, b: Key) {
    a.major < b.major || (a.major == b.major && a.minor < b.minor)
  }

  /** ORDER BY major DESC, minor DESC. */
  predicate Sorted(view: seq<Row>) {
    forall i, j :: 0 <= i < j < |view| ==> !Less(view[i].key, view[j].key)
  }

  predicate StrictlySorted(view: seq<Row>) {
    forall i, j :: 0 <= i < j < |view| ==> Less(view[j].key, view[i].key)
  }

  /** The cursor condition is a strict total order, so it decides the position of every pair of keys. */
  lemma LessIsStrictTotal(a: Key, b: Key, c: Key)
    ensures !Less(a, a)
    ensures Less(a, b) && Less(b, c) ==> Less(a, c)
    ensures a == b || (Less(a, b) <==> !Less(b, a))
  {
  }

  predicate Beyond(cursor: Option<Key>, r: Row) { cursor.None? || Less(r.key, cursor.value) }

  /** The rows the WHERE clause keeps. */
  function Where(view: seq<Row>, p: Row -> bool, cursor: Option<Key>): seq<Row> {
    if view == [] then []
    else (if p(view[0]) && Beyond(cursor, view[0]) then [view[0]] else []) + Where(view[1..], p, cursor)
  }

  function Take(rows: seq<Row>, n: nat): seq<Row> {
    if |rows| <= n then rows else rows[..n]
  }

  // ---------------------------------------------------------------- what a cursor leaves

  lemma {:induction false} WhereHolds(view: seq<Row>, p: Row -> bool, cursor: Option<Key>, r: Row)
    ensures r in Where(view, p, cursor) <==> r in view && p(r) && Beyond(cursor, r)
  {
    if view != [] {
      WhereHolds(view[1..], p, cursor, r);
      assert r in view <==> r == view[0] || r in view[1..];
    }
  }

  lemma {:induction false} WhereKeepsOrder(view: seq<Row>, p: Row -> bool, cursor: Option<Key>)
    ensures Sorted(view) ==> Sorted(Where(view, p, cursor))
    ensures StrictlySorted(view) ==> StrictlySorted(Where(view, p, cursor))
  {
    if view != [] {
      var rest := Where(view[1..], p, cursor);
      WhereKeepsOrder(view[1..], p, cursor);
      forall i | 0 <= i < |rest|
        ensures Sorted(view) ==> !Less(view[0].key, rest[i].key)
        ensures StrictlySorted(view) ==> Less(rest[i].key, view[0].key)
      {
        WhereHolds(view[1..], p, cursor, rest[i]);
        var j :| 0 <= j < |view[1..]| && view[1..][j] == rest[i];
        assert rest[i] == view[j + 1];
      }
    }
  }

  /** A later cursor only narrows what an earlier one left. */
  lemma {:induction false} CursorsNarrow(view: seq<Row>, p: Row -> bool, cursor: Option<Key>, later: Key)
    requires cursor.Some? ==> Less(later, cursor.value) || later == cursor.value
    ensures Where(view, p, Some(later)) == Where(Where(view, p, cursor), p, Some(later))
  {
    if view != [] {
      CursorsNarrow(view[1..], p, cursor, later);
      var rest := Where(view[1..], p, cursor);
      if p(view[0]) && Beyond(cursor, view[0]) {
        assert ([view[0]] + rest)[1..] == rest;
      } else {
        assert Where(view, p, cursor) == rest;
        assert !(p(view[0]) && Beyond(Some(later), view[0]));
      }
    }
  }

  /** In a sorted list that p accepts, a cursor cuts off a prefix. */
  lemma {:induction false} CursorCuts(rows: seq<Row>, p: Row -> bool, m: nat, k: Key)
    requires m <= |rows| && forall r :: r in rows ==> p(r)
    requires forall i :: 0 <= i < m ==> !Less(rows[i].key, k)
    requires forall i :: m <= i < |rows| ==> Less(rows[i].key, k)
    ensures Where(rows, p, Some(k)) == rows[m..]
  {
    if rows != [] {
      var m' := if m == 0 then 0 else m - 1;
      forall r | r in rows[1..] ensures p(r) {
      }
      CursorCuts(rows[1..], p, m', k);
      if m == 0 {
        assert [rows[0]] + rows[1..] == rows;
      } else {
        assert rows[1..][m'..] == rows[m..];
      }
    }
  }

  /** A cursor at or before a row that was left cuts at least that row off. */
  lemma {:induction false} StricterKeepsFewer(view: seq<Row>, p: Row -> bool, cursor: Option<Key>, r: Row, k: Key)
    requires Beyond(cursor, r) && (k == r.key || Less(k, r.key))
    ensures |Where(view, p, Some(k))| <= |Where(view, p, cursor)|
    ensures r in Where(view, p, cursor) ==> |Where(view, p, Some(k))| < |Where(view, p, cursor)|
  {
    if view != [] {
      StricterKeepsFewer(view[1..], p, cursor, r, k);
    }
  }

  function FirstBelow(rows: seq<Row>, k: Key): (m: nat)
    ensures m <= |rows|
    ensures forall i :: 0 <= i < m ==> !Less(rows[i].key, k)
    ensures m < |rows| ==> Less(rows[m].key, k)
  {
    if rows == [] || Less(rows[0].key, k) then 0 else 1 + FirstBelow(rows[1..], k)
  }

  lemma SortedBelow(rows: seq<Row>, k: Key, m: nat)
    requires Sorted(rows) && m <= |rows| && (m < |rows| ==> Less(rows[m].key, k))
    ensures forall i :: m <= i < |rows| ==> Less(rows[i].key, k)
  {
    forall i | m <= i < |rows| ensures Less(rows[i].key, k) {
      LessIsStrictTotal(rows[i].key, rows[m].key, k);
    }
  }

  /** What a cursor at or before the last row of a page leaves: nothing of the page, and all the rest unless it cuts too deep. */
  lemma AfterPage(view: seq<Row>, p: Row -> bool, cursor: Option<Key>, size: nat, k: Key) returns (m: nat)
    requires size >= 1 && Sorted(view) && |Where(view, p, cursor)| >= size
    requires var last := Where(view, p, cursor)[size - 1].key; k == last || Less(k, last)
    ensures var rows := Where(view, p, cursor);
      && size <= m <= |rows|
      && Where(view, p, Some(k)) == rows[m..]
      && (m == size <==> |rows| == size || Less(rows[size].key, k))
  {
    var rows := Where(view, p, cursor);
    WhereKeepsOrder(view, p, cursor);
    WhereHolds(view, p, cursor, rows[size - 1]);
    forall r | r in rows ensures p(r) {
      WhereHolds(view, p, cursor, r);
    }
    CursorsNarrow(view, p, cursor, k);
    hide Where, FirstBelow;
    m := FirstBelow(rows, k);
    SortedBelow(rows, k, m);
    CursorCuts(rows, p, m, k);
    PageIsNotBelow(rows, size, k);
  }

  lemma PageIsNotBelow(rows: seq<Row>, size: nat, k: Key)
    requires Sorted(rows) && 1 <= size <= |rows|
    requires k == rows[size - 1].key || Less(k, rows[size - 1].key)
    ensures forall i :: 0 <= i < size ==> !Less(rows[i].key, k)
  {
  }

  /** At no full page's end does the cursor cut off the row that comes next. */
  ghost predicate NoSplit(rows: seq<Row>, size: nat, cut: Key -> Key)
    requires size >= 1
    decreases |rows|
  {
    |rows| <= size || (Less(rows[size].key, cut(rows[size - 1].key)) && NoSplit(rows[size..], size, cut))
  }

  /** Every row lies below the cursor that the row before it would give. */
  ghost predicate Separated(rows: seq<Row>, cut: Key -> Key) {
    forall i :: 0 < i < |rows| ==> Less(rows[i].key, cut(rows[i - 1].key))
  }

  lemma {:induction false} SeparatedNeverSplit(rows: seq<Row>, size: nat, cut: Key -> Key)
    requires size >= 1 && Separated(rows, cut)
    ensures NoSplit(rows, size, cut)
    decreases |rows|
  {
    if |rows| > size {
      SeparatedNeverSplit(rows[size..], size, cut);
    }
  }

  /** A first page and what follows it make up the whole exactly when nothing was skipped and the rest is complete. */
  lemma PageGlues(rows: seq<Row>, rest: seq<Row>, size: nat, m: nat)
    requires size <= m <= |rows| && |rest| <= |rows| - m
    ensures rows[..size] + rest == rows <==> m == size && rest == rows[m..]
  {
    assert (rows[..size] + rest)[size..] == rest;
    assert rows[..size] + rows[size..] == rows;
  }

  /** The first rows of a descending list, and what is left out of them. */
  lemma HeadCovers(rows: seq<Row>, limit: nat)
    requires limit >= 1 && StrictlySorted(rows)
    ensures var head := Take(rows, limit);
      && StrictlySorted(head)
      && (forall r :: r in head ==> r in rows && !Less(r.key, head[|head| - 1].key))
      && (forall r :: r in rows ==> r in head || (|rows| > limit && Less(r.key, head[|head| - 1].key)))
  {
    if |rows| > limit {
      var head := rows[..limit];
      forall r | r in rows ensures r in head || Less(r.key, head[limit - 1].key) {
        var j :| 0 <= j < |rows| && rows[j] == r;
        if j < limit {
          assert head[j] == r;
        }
      }
    }
  }

  lemma PagesInOrder(data: seq<Row>, rest: seq<Row>, k: Key)
    requires StrictlySorted(data) && StrictlySorted(rest)
    requires forall r :: r in data ==> !Less(r.key, k)
    requires forall r :: r in rest ==> Less(r.key, k)
    ensures StrictlySorted(data + rest)
  {
    forall i, j | 0 <= i < |data| && 0 <= j < |rest| ensures Less(rest[j].key, data[i].key) {
      assert data[i] in data && rest[j] in rest;
      LessIsStrictTotal(rest[j].key, k, data[i].key);
      LessIsStrictTotal(k, data[i].key, k);
    }
  }
}
