/**
 The offboarding archive: the page loop that writes one table as NDJSON below
 a descending cursor (apps/api/src/domains/platform/tenant-offboarding.service.ts).
 The tables page by one column, whose value is modelled as its rank in the
 database's order, 0 being the empty string, which the loop takes for no key
 at all.
 */
module Archive {
  import opened Paging
  import opened Wrappers

  /** The single paging column is the major half of a key. */
  predicate SingleColumn(view: seq<Row>) {
    forall i :: 0 <= i < |view| ==> view[i].key.minor == 0 && view[i].key.major >= 0
  }

  type View = view: seq<Row> | SingleColumn(view)

  /** `{ lt: cursor }`, or no condition on the first page. */
  function Cursor(cursor: Option<nat>): Option<Key> {
    if cursor.None? then None else Some(Key(cursor.value, 0))
  }

  /** The rows below a cursor. */
  function Below(view: View, cursor: Option<nat>): seq<Row> { Where(view, Every(), Cursor(cursor)) }

  /** One findMany of the archive: the next rows below the cursor, at most a page of them. */
  function PageOf(view: View, cursor: Option<nat>, size: nat): (rows: seq<Row>)
    ensures |rows| <= size
  {
    Take(Below(view, cursor), size)
  }

  function Rank(r: Row): nat { if r.key.major >= 0 then r.key.major else 0 }

  /** The key the loop continues below is itself below the cursor, so the walk ends. */
  lemma LastIsBeyond(view: View, cursor: Option<nat>, size: nat)
    ensures var rows := PageOf(view, cursor, size);
      rows != [] ==>
        var last := rows[|rows| - 1];
        last.key == Key(Rank(last), 0) && (cursor.Some? ==> Rank(last) < cursor.value)
  {
    hide Where;
    var rows := PageOf(view, cursor, size);
    if rows != [] {
      WhereHolds(view, Every(), Cursor(cursor), Below(view, cursor)[|rows| - 1]);
    }
  }

  // ---------------------------------------------------------------- the loop

  datatype Line =
    | TableBegin(table: string)
    | RowLine(table: string, row: Row)
    | TableEnd(table: string, count: nat)

  function RowLines(table: string, rows: seq<Row>): (lines: seq<Line>)
    ensures |lines| == |rows|
  {
    seq(|rows|, i requires 0 <= i < |rows| => RowLine(table, rows[i]))
  }

  /** The archive under construction: the lines written and their total length. */
  class ArchiveStream {
    var lines: seq<Line>
    var bytes: nat
    const sizeOf: Line -> nat

    constructor (sizeOf: Line -> nat)
      ensures this.sizeOf == sizeOf && lines == [] && bytes == 0 && Valid()
    {
      this.sizeOf, lines, bytes := sizeOf, [], 0;
    }

    function TotalSize(ls: seq<Line>): nat {
      if ls == [] then 0 else TotalSize(ls[..|ls| - 1]) + sizeOf(ls[|ls| - 1])
    }

    /** A sum: nothing for no line, a line's length for it alone, and additive. */
    lemma {:induction false} SizesAddUp(a: seq<Line>, b: seq<Line>)
      ensures TotalSize([]) == 0 && TotalSize(a + b) == TotalSize(a) + TotalSize(b)
      ensures |b| == 1 ==> TotalSize(b) == sizeOf(b[0])
      decreases |b|
    {
      if b == [] {
        assert a + b == a;
      } else {
        var n := |b| - 1;
        SizesAddUp(a, b[..n]);
        assert (a + b)[..|a + b| - 1] == a + b[..n];
        if n == 0 { assert b[..n] == []; }
      }
    }

    /** The reported size is the length of what was written. */
    predicate Valid()
      reads this
    {
      bytes == TotalSize(lines)
    }

    method Write(line: Line)
      requires Valid()
      modifies this
      ensures Valid() && lines == old(lines) + [line] && bytes == old(bytes) + sizeOf(line)
    {
      lines := lines + [line];
      bytes := bytes + sizeOf(line);
      assert lines[..|lines| - 1] == old(lines);
    }

    method WritePage(table: string, rows: seq<Row>)
      requires Valid()
      modifies this
      ensures Valid() && lines == old(lines) + RowLines(table, rows)
    {
      for i := 0 to |rows|
        invariant Valid() && lines == old(lines) + RowLines(table, rows)[..i]
      {
        Write(RowLine(table, rows[i]));
      }
      assert RowLines(table, rows)[..|rows|] == RowLines(table, rows);
    }
  }

  /**
   The rows the loop writes from its i-th page on; `tables` is the table as
   each page finds it, since rows come and go while the archive runs.
   */
  function Walk(tables: nat -> View, i: nat, cursor: Option<nat>, size: nat): seq<Row>
    requires size >= 1
    decreases if cursor.None? then 1 else 0, if cursor.Some? then cursor.value else 0
  {
    var rows := PageOf(tables(i), cursor, size);
    if rows == [] then []
    else
      LastIsBeyond(tables(i), cursor, size);
      var next := Rank(rows[|rows| - 1]);
      if next == 0 || cursor == Some(next) || |rows| < size then rows
      else rows + Walk(tables, i + 1, Some(next), size)
  }

  /** What the stream holds once the given rows of the table are written. */
  function Written(start: seq<Line>, table: string, rows: seq<Row>): seq<Line> {
    start + RowLines(table, rows)
  }

  /** One line a row, in order. */
  lemma LinesAreRows(start: seq<Line>, table: string, rows: seq<Row>)
    ensures |Written(start, table, rows)| == |start| + |rows| && start <= Written(start, table, rows)
    ensures forall i :: 0 <= i < |rows| ==> Written(start, table, rows)[|start| + i] == RowLine(table, rows[i])
  {
  }

  lemma WrittenPage(start: seq<Line>, table: string, rows: seq<Row>, page: seq<Row>)
    ensures Written(start, table, []) == start
    ensures Written(start, table, rows) + RowLines(table, page) == Written(start, table, rows + page)
  {
    assert RowLines(table, []) == [];
    assert RowLines(table, rows) + RowLines(table, page) == RowLines(table, rows + page);
    assert start + (RowLines(table, rows) + RowLines(table, page)) == start + RowLines(table, rows) + RowLines(table, page);
  }

  /** One turn of the loop; the flag says whether it goes on. */
  lemma WalkStep(tables: nat -> View, i: nat, cursor: Option<nat>, size: nat, rows: seq<Row>)
    requires size >= 1 && rows == PageOf(tables(i), cursor, size)
    ensures rows == [] ==> Walk(tables, i, cursor, size) == []
    ensures rows != [] ==>
      var next := Rank(rows[|rows| - 1]);
      && (next == 0 || cursor == Some(next) || |rows| < size ==> Walk(tables, i, cursor, size) == rows)
      && (!(next == 0 || cursor == Some(next) || |rows| < size) ==>
           && Walk(tables, i, cursor, size) == rows + Walk(tables, i + 1, Some(next), size)
           && (cursor.Some? ==> next < cursor.value))
  {
    hide PageOf;
    LastIsBeyond(tables(i), cursor, size);
  }

  method StreamPagedNdjson(out: ArchiveStream, table: string, tables: nat -> View, size: nat)
    requires size >= 1 && out.Valid()
    modifies out
    ensures out.Valid()
    ensures var rows := Walk(tables, 0, None, size);
      out.lines == Written(old(out.lines) + [TableBegin(table)], table, rows) + [TableEnd(table, |rows|)]
    ensures var rows, n := Walk(tables, 0, None, size), |old(out.lines)|;
      && |out.lines| == n + |rows| + 2 && old(out.lines) <= out.lines
      && out.lines[n] == TableBegin(table) && out.lines[n + |rows| + 1] == TableEnd(table, |rows|)
      && forall i :: 0 <= i < |rows| ==> out.lines[n + 1 + i] == RowLine(table, rows[i])
  {
    out.Write(TableBegin(table));
    ghost var start := out.lines;
    var pageCount := StreamPages(out, table, tables, size, start);
    LinesAreRows(start, table, Walk(tables, 0, None, size));
    out.Write(TableEnd(table, pageCount));
  }

  /** The walked rows, as far as the loop has come and from there on. */
  ghost predicate OnTheWalk(
    tables: nat -> View, size: nat, written: seq<Row>, i: nat, cursor: Option<nat>, more: bool)
    requires size >= 1
  {
    Walk(tables, 0, None, size) == if more then written + Walk(tables, i, cursor, size) else written
  }

  lemma Regroup(a: seq<Row>, b: seq<Row>, c: seq<Row>)
    ensures a + (b + c) == a + b + c
  {
  }

  lemma WalksOn(
    tables: nat -> View, size: nat, written: seq<Row>, i: nat, cursor: Option<nat>, rows: seq<Row>)
    requires size >= 1 && rows == PageOf(tables(i), cursor, size) && OnTheWalk(tables, size, written, i, cursor, true)
    ensures rows == [] ==> OnTheWalk(tables, size, written, i, cursor, false)
    ensures rows != [] ==>
      var next := Rank(rows[|rows| - 1]);
      && OnTheWalk(tables, size, written + rows, i + 1, Some(next), !(next == 0 || cursor == Some(next) || |rows| < size))
      && (!(next == 0 || cursor == Some(next) || |rows| < size) && cursor.Some? ==> next < cursor.value)
  {
    hide Walk, PageOf, Rank;
    WalkStep(tables, i, cursor, size, rows);
    if rows == [] {
      assert written + rows == written;
    } else {
      Regroup(written, rows, Walk(tables, i + 1, Some(Rank(rows[|rows| - 1])), size));
    }
  }

  /** The page loop itself. */
  method StreamPages(out: ArchiveStream, table: string, tables: nat -> View, size: nat, ghost start: seq<Line>)
    returns (pageCount: nat)
    requires size >= 1 && out.Valid() && out.lines == start
    modifies out
    ensures out.Valid() && out.lines == Written(start, table, Walk(tables, 0, None, size))
    ensures pageCount == |Walk(tables, 0, None, size)|
  {
    hide PageOf, Below, RowLines, Written, Walk, Rank;
    var cursor: Option<nat> := None;
    ghost var written: seq<Row> := [];
    pageCount := 0;
    var i, more := 0, true;
    WrittenPage(start, table, [], []);
    while more
      invariant out.Valid() && out.lines == Written(start, table, written) && pageCount == |written|
      invariant OnTheWalk(tables, size, written, i, cursor, more)
      decreases more, if cursor.None? then 1 else 0, if cursor.Some? then cursor.value else 0
    {
      var rows := PageOf(tables(i), cursor, size);
      WalksOn(tables, size, written, i, cursor, rows);
      if rows == [] {
        more := false;
        break;
      }
      out.WritePage(table, rows);
      WrittenPage(start, table, written, rows);
      pageCount := pageCount + |rows|;
      written := written + rows;
      var next := Rank(rows[|rows| - 1]);
      if next == 0 || cursor == Some(next) {
        cursor, i, more := Some(next), i + 1, false;
        break;
      }
      cursor := Some(next);
      i := i + 1;
      if |rows| < size {
        more := false;
        break;
      }
    }
  }

  // ---------------------------------------------------------------- what the loop writes

  lemma PageCovers(view: View, cursor: Option<nat>, size: nat)
    requires size >= 1 && StrictlySorted(view)
    ensures var rows := PageOf(view, cursor, size);
      && StrictlySorted(rows)
      && (forall r :: r in rows ==> r in view && Beyond(Cursor(cursor), r) && !Less(r.key, rows[|rows| - 1].key))
      && (forall r :: r in view && Beyond(Cursor(cursor), r) ==>
           r in rows || (|rows| == size && Less(r.key, rows[|rows| - 1].key)))
  {
    var all := Below(view, cursor);
    var rows := PageOf(view, cursor, size);
    WhereKeepsOrder(view, Every(), Cursor(cursor));
    HeadCovers(all, size);
    hide Where, StrictlySorted;
    forall r | r in rows ensures r in view && Beyond(Cursor(cursor), r) {
      WhereHolds(view, Every(), Cursor(cursor), r);
    }
    forall r | r in view && Beyond(Cursor(cursor), r)
      ensures r in rows || (|rows| == size && Less(r.key, rows[|rows| - 1].key))
    {
      WhereHolds(view, Every(), Cursor(cursor), r);
    }
  }

  /**
   A row that is there at every page read is archived exactly once, in
   descending order, whatever is inserted or deleted meanwhile; and nothing is
   archived that no page found.
   */
  lemma {:induction false} StableRowsAreArchivedOnce(tables: nat -> View, i: nat, cursor: Option<nat>, size: nat)
    requires size >= 1 && forall j: nat :: StrictlySorted(tables(j))
    ensures var got := Walk(tables, i, cursor, size);
      && StrictlySorted(got)
      && (forall r :: r in got ==> Beyond(Cursor(cursor), r) && exists j: nat :: r in tables(j))
      && (forall r :: (forall j: nat :: r in tables(j)) && Beyond(Cursor(cursor), r) ==> r in got)
    decreases if cursor.None? then 1 else 0, if cursor.Some? then cursor.value else 0
  {
    hide PageOf, Below, StrictlySorted, Walk;
    var rows := PageOf(tables(i), cursor, size);
    WalkStep(tables, i, cursor, size, rows);
    PageCovers(tables(i), cursor, size);
    LastIsBeyond(tables(i), cursor, size);
    hide Rank;
    if rows != [] {
      var next := Rank(rows[|rows| - 1]);
      if !(next == 0 || cursor == Some(next) || |rows| < size) {
        StableRowsAreArchivedOnce(tables, i + 1, Some(next), size);
        PagesInOrder(rows, Walk(tables, i + 1, Some(next), size), Key(next, 0));
      } else if next == 0 {
        NothingBelowZero(tables(i));
        StableIsInThePage(tables, i);
      }
    }
  }

  lemma StableIsInThePage(tables: nat -> View, i: nat)
    ensures forall r :: (forall j: nat :: r in tables(j)) ==> r in tables(i) && !Less(r.key, Key(0, 0))
  {
    forall r | forall j: nat :: r in tables(j) ensures r in tables(i) && !Less(r.key, Key(0, 0)) {
      assert r in tables(i);
      var k :| 0 <= k < |tables(i)| && tables(i)[k] == r;
    }
  }

  // ---------------------------------------------------------------- a table that stands still

  /** The table at rest: every page finds the same rows. */
  function Still(view: View): nat -> View { _ => view }

  function Exact(): Key -> Key { k => k }

  lemma {:induction false} NothingBelowZero(view: View)
    ensures Below(view, Some(0)) == []
  {
    if view != [] {
      assert view[0].key.minor == 0 && view[0].key.major >= 0;
      NothingBelowZero(view[1..]);
    }
  }

  lemma WalkUnfolds(view: View, i: nat, cursor: Option<nat>, size: nat)
    requires size >= 1
    ensures var rows := Below(view, cursor);
      if |rows| < size then Walk(Still(view), i, cursor, size) == rows
      else
        var next := Rank(rows[size - 1]);
        && rows[size - 1].key == Key(next, 0)
        && (next == 0 ==> Walk(Still(view), i, cursor, size) == rows[..size])
        && (next != 0 ==>
             && Walk(Still(view), i, cursor, size) == rows[..size] + Walk(Still(view), i + 1, Some(next), size)
             && (cursor.Some? ==> next < cursor.value))
  {
    hide Below, Walk, Rank;
    var rows := Below(view, cursor);
    WalkStep(Still(view), i, cursor, size, PageOf(view, cursor, size));
    LastIsBeyond(view, cursor, size);
    if |rows| >= size {
      assert PageOf(view, cursor, size) == rows[..size];
    }
  }

  lemma AfterArchivePage(view: View, cursor: Option<nat>, size: nat) returns (m: nat)
    requires size >= 1 && Sorted(view) && |Below(view, cursor)| >= size
    ensures var rows := Below(view, cursor);
      && size <= m <= |rows|
      && Below(view, Some(Rank(rows[size - 1]))) == rows[m..]
      && (m == size <==> |rows| == size || Less(rows[size].key, Exact()(rows[size - 1].key)))
  {
    hide Where, Sorted;
    WhereHolds(view, Every(), Cursor(cursor), Below(view, cursor)[size - 1]);
    m := AfterPage(view, Every(), Cursor(cursor), size, Key(Rank(Below(view, cursor)[size - 1]), 0));
  }

  /**
   Over a table that does not change the archive is the table, also at exact
   multiples of the page size, exactly when no full page ends inside a run of
   equal keys; otherwise it is short of rows.
   */
  lemma {:induction false} ArchiveIsTheTable(view: View, i: nat, cursor: Option<nat>, size: nat)
    requires size >= 1 && Sorted(view)
    ensures Walk(Still(view), i, cursor, size) == Below(view, cursor) <==> NoSplit(Below(view, cursor), size, Exact())
    ensures |Walk(Still(view), i, cursor, size)| <= |Below(view, cursor)|
    ensures |Walk(Still(view), i, cursor, size)| == |Below(view, cursor)| <==> NoSplit(Below(view, cursor), size, Exact())
    decreases if cursor.None? then 1 else 0, if cursor.Some? then cursor.value else 0
  {
    hide Walk, Below, Sorted, Still, Rank, Exact;
    WalkUnfolds(view, i, cursor, size);
    var rows := Below(view, cursor);
    if |rows| >= size {
      var next := Rank(rows[size - 1]);
      var m := AfterArchivePage(view, cursor, size);
      if next == 0 {
        NothingBelowZero(view);
        PageGlues(rows, [], size, m);
      } else {
        ArchiveIsTheTable(view, i + 1, Some(next), size);
        PageGlues(rows, Walk(Still(view), i + 1, Some(next), size), size, m);
      }
    }
  }

  lemma {:induction false} FirstPageIsUnconditional(view: seq<Row>)
    ensures Where(view, Every(), None) == view
  {
    if view != [] {
      FirstPageIsUnconditional(view[1..]);
    }
  }

  /** An instance: two rows that share their key, archived a row at a time; the second is not in the archive. */
  lemma SharedKeysCanBeLost(k: nat)
    requires k > 0
    ensures var view := [Row(Key(k, 0), 0), Row(Key(k, 0), 1)];
      SingleColumn(view) && Sorted(view) && |Walk(Still(view), 0, None, 1)| < |view|
  {
    var view: View := [Row(Key(k, 0), 0), Row(Key(k, 0), 1)];
    FirstPageIsUnconditional(view);
    ArchiveIsTheTable(view, 0, None, 1);
    hide Walk, Where;
    assert !NoSplit(view, 1, Exact());
  }

  /** With a unique key the archive of a table at rest is the table, and the count it closes with is the row count. */
  lemma UniqueKeysArchiveCompletely(view: View, size: nat)
    requires size >= 1 && StrictlySorted(view)
    ensures Walk(Still(view), 0, None, size) == view
  {
    FirstPageIsUnconditional(view);
    assert Separated(view, Exact());
    SeparatedNeverSplit(view, size, Exact());
    assert Sorted(view);
    ArchiveIsTheTable(view, 0, None, size);
  }
}
