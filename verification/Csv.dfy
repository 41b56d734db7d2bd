/**
 The export's CSV writer, and a reader for the format of section 2 of RFC 4180
 with records ended by LF, which is what the writer emits
 (apps/api/src/domains/exports/export.service.ts).
 */
module Csv {
  import opened Wrappers

  // ---------------------------------------------------------------- the writer

  predicate Special(c: char) { c == ',' || c == '"' || c == '\n' }

  predicate Plain(s: string) { forall i :: 0 <= i < |s| ==> !Special(s[i]) }

  function DoubleQuotes(s: string): string {
    if s == "" then "" else (if s[0] == '"' then "\"\"" else [s[0]]) + DoubleQuotes(s[1..])
  }

  function EscapeText(s: string): string {
    if Plain(s) then s else "\"" + DoubleQuotes(s) + "\""
  }

  /** A cell is the String() of a value, or null or undefined. */
  function Escape(v: Option<string>): string {
    match v
    case None => ""
    case Some(s) => EscapeText(s)
  }

  function Join(parts: seq<string>, sep: char): string {
    if parts == [] then ""
    else if |parts| == 1 then parts[0]
    else parts[0] + [sep] + Join(parts[1..], sep)
  }

  type Record = map<string, Option<string>>

  /** A key the record lacks reads as undefined. */
  function Lookup(r: Record, column: string): Option<string> {
    if column in r then r[column] else None
  }

  function EscapeAll(r: Record, columns: seq<string>): seq<string> {
    if columns == [] then [] else [Escape(Lookup(r, columns[0]))] + EscapeAll(r, columns[1..])
  }

  function Lines(columns: seq<string>, rows: seq<Record>): seq<string> {
    if rows == [] then [] else [Join(EscapeAll(rows[0], columns), ',')] + Lines(columns, rows[1..])
  }

  /** The header is joined as it stands; only the cells are escaped. */
  function ToCsv(columns: seq<string>, rows: seq<Record>): string {
    Join(columns, ',') + "\n" + Join(Lines(columns, rows), '\n') + "\n"
  }

  // ---------------------------------------------------------------- the reader

  /** What a parse step found and what is left. */
  type Parsed<T> = Option<(T, string)>

  /** The inside of a quoted field, up to its closing quote. */
  function ReadQuoted(s: string): (r: Parsed<string>)
    ensures r.Some? ==> |r.value.1| < |s|
  {
    if s == "" then None
    else if s[0] == '"' then
      if |s| > 1 && s[1] == '"' then
        match ReadQuoted(s[2..])
        case None => None
        case Some(p) => Some(("\"" + p.0, p.1))
      else Some(("", s[1..]))
    else
      match ReadQuoted(s[1..])
      case None => None
      case Some(p) => Some(([s[0]] + p.0, p.1))
  }

  function PlainPrefix(s: string): (n: nat)
    ensures n <= |s| && Plain(s[..n])
  {
    if s == "" || Special(s[0]) then 0 else 1 + PlainPrefix(s[1..])
  }

  function ReadField(s: string): (r: Parsed<string>)
    ensures r.Some? ==> |r.value.1| <= |s|
  {
    if s != "" && s[0] == '"' then ReadQuoted(s[1..])
    else Some((s[..PlainPrefix(s)], s[PlainPrefix(s)..]))
  }

  /** The fields up to the end of the record, and the text after its LF. */
  function ReadRecord(s: string): (r: Parsed<seq<string>>)
    ensures r.Some? ==> |r.value.0| >= 1 && |r.value.1| <= |s| && (s != "" ==> |r.value.1| < |s|)
    decreases |s|
  {
    match ReadField(s)
    case None => None
    case Some((f, rest)) =>
      if rest == "" then Some(([f], ""))
      else if rest[0] == '\n' then Some(([f], rest[1..]))
      else if rest[0] != ',' then None
      else
        match ReadRecord(rest[1..])
        case None => None
        case Some((fs, end)) => Some(([f] + fs, end))
  }

  function Read(s: string): Option<seq<seq<string>>>
    decreases |s|
  {
    if s == "" then Some([])
    else
      match ReadRecord(s)
      case None => None
      case Some((fields, rest)) =>
        match Read(rest)
        case None => None
        case Some(records) => Some([fields] + records)
  }

  // ---------------------------------------------------------------- one field

  /** Text that follows a complete field. */
  predicate EndsField(t: string) { t != "" && (t[0] == ',' || t[0] == '\n') }

  lemma {:induction false} QuotedReads(s: string, t: string)
    requires EndsField(t)
    ensures ReadQuoted(DoubleQuotes(s) + "\"" + t) == Some((s, t))
  {
    var text := DoubleQuotes(s) + "\"" + t;
    if s == "" {
      assert text == "\"" + t && text[1..] == t;
    } else {
      QuotedReads(s[1..], t);
      var n := if s[0] == '"' then 2 else 1;
      assert text[n..] == DoubleQuotes(s[1..]) + "\"" + t;
      assert s == [s[0]] + s[1..];
    }
  }

  lemma {:induction false} PlainPrefixEnds(s: string, t: string)
    requires Plain(s) && EndsField(t)
    ensures PlainPrefix(s + t) == |s|
  {
    if s == "" {
      assert s + t == t;
    } else {
      PlainPrefixEnds(s[1..], t);
      assert (s + t)[1..] == s[1..] + t;
    }
  }

  lemma PlainFieldReads(s: string, t: string)
    requires Plain(s) && EndsField(t)
    ensures ReadField(s + t) == Some((s, t))
  {
    PlainPrefixEnds(s, t);
    assert (s + t)[..|s|] == s && (s + t)[|s|..] == t;
    assert (s + t)[0] == if s == "" then t[0] else s[0];
  }

  lemma QuotedFieldReads(s: string, t: string)
    requires EndsField(t)
    ensures ReadField("\"" + DoubleQuotes(s) + "\"" + t) == Some((s, t))
  {
    hide DoubleQuotes, ReadQuoted, PlainPrefix;
    var inside := DoubleQuotes(s) + "\"" + t;
    QuotedReads(s, t);
    assert "\"" + DoubleQuotes(s) + "\"" + t == "\"" + inside;
    assert ("\"" + inside)[1..] == inside;
  }

  lemma FieldReads(s: string, t: string)
    requires EndsField(t)
    ensures ReadField(EscapeText(s) + t) == Some((s, t))
  {
    hide ReadField, DoubleQuotes, Plain;
    if Plain(s) {
      PlainFieldReads(s, t);
    } else {
      QuotedFieldReads(s, t);
    }
  }

  // ---------------------------------------------------------------- records

  function EscapeTexts(fields: seq<string>): seq<string> {
    if fields == [] then [] else [EscapeText(fields[0])] + EscapeTexts(fields[1..])
  }

  lemma {:induction false} RecordReads(fields: seq<string>, rest: string)
    requires fields != []
    ensures ReadRecord(Join(EscapeTexts(fields), ',') + "\n" + rest) == Some((fields, rest))
  {
    hide EscapeText, ReadField;
    var text := Join(EscapeTexts(fields), ',') + "\n" + rest;
    var e := EscapeText(fields[0]);
    if |fields| == 1 {
      assert fields == [fields[0]] && fields[1..] == [];
      assert EscapeTexts(fields[1..]) == [];
      assert Join(EscapeTexts(fields), ',') == e;
      assert text == e + ("\n" + rest);
      FieldReads(fields[0], "\n" + rest);
      assert ("\n" + rest)[1..] == rest;
    } else {
      var more := Join(EscapeTexts(fields[1..]), ',') + "\n" + rest;
      assert EscapeTexts(fields)[1..] == EscapeTexts(fields[1..]);
      assert text == e + ("," + more);
      FieldReads(fields[0], "," + more);
      assert ("," + more)[1..] == more;
      RecordReads(fields[1..], rest);
      assert fields == [fields[0]] + fields[1..];
    }
  }

  /** What a reader should see of a cell: null and undefined as the empty string. */
  function Text(r: Record, column: string): string {
    match Lookup(r, column)
    case None => ""
    case Some(s) => s
  }

  function Texts(r: Record, columns: seq<string>): (t: seq<string>)
    ensures |t| == |columns|
  {
    if columns == [] then [] else [Text(r, columns[0])] + Texts(r, columns[1..])
  }

  function AllTexts(columns: seq<string>, rows: seq<Record>): (t: seq<seq<string>>)
    ensures |t| == |rows|
  {
    if rows == [] then [] else [Texts(rows[0], columns)] + AllTexts(columns, rows[1..])
  }

  lemma {:induction false} EscapeAllIsEscapeTexts(r: Record, columns: seq<string>)
    ensures EscapeAll(r, columns) == EscapeTexts(Texts(r, columns))
  {
    if columns != [] {
      EscapeAllIsEscapeTexts(r, columns[1..]);
      assert EscapeText("") == "";
    }
  }

  lemma {:induction false} RowsRead(columns: seq<string>, rows: seq<Record>)
    requires columns != [] && rows != []
    ensures Read(Join(Lines(columns, rows), '\n') + "\n") == Some(AllTexts(columns, rows))
  {
    var text := Join(Lines(columns, rows), '\n') + "\n";
    var fields := Texts(rows[0], columns);
    EscapeAllIsEscapeTexts(rows[0], columns);
    if |rows| == 1 {
      assert rows[1..] == [] && Lines(columns, rows[1..]) == [];
      assert Join(Lines(columns, rows), '\n') == Join(EscapeTexts(fields), ',');
      assert text == Join(EscapeTexts(fields), ',') + "\n" + "";
      RecordReads(fields, "");
    } else {
      var more := Join(Lines(columns, rows[1..]), '\n') + "\n";
      assert Lines(columns, rows)[1..] == Lines(columns, rows[1..]);
      assert text == Join(EscapeTexts(fields), ',') + "\n" + more;
      RecordReads(fields, more);
      RowsRead(columns, rows[1..]);
    }
  }

  // ---------------------------------------------------------------- the header

  predicate PlainHeader(columns: seq<string>) {
    forall i :: 0 <= i < |columns| ==> Plain(columns[i])
  }

  lemma {:induction false} PlainTextsAreThemselves(columns: seq<string>)
    requires PlainHeader(columns)
    ensures EscapeTexts(columns) == columns
  {
    if columns != [] {
      PlainTextsAreThemselves(columns[1..]);
    }
  }

  /**
   A raw name that opens with a quote is never read back as itself: to yield
   the quotes read so far the reader needs twice as many, so it runs past the
   name.  f[..j] is all quotes; the reader stands at j and owes f[i..].
   */
  lemma {:induction false} QuoteNeverEchoes(f: string, t: string, i: nat, j: nat)
    requires EndsField(t) && i < j <= |f| && forall k :: 0 <= k < j ==> f[k] == '"'
    ensures ReadQuoted(f[j..] + t).None? || ReadQuoted(f[j..] + t).value.0 != f[i..]
    decreases |f| - j
  {
    var text := f[j..] + t;
    if j + 1 < |f| && f[j] == '"' && f[j + 1] == '"' {
      QuoteNeverEchoes(f, t, i + 1, j + 2);
      assert text[2..] == f[j + 2..] + t;
      assert f[i..][1..] == f[i + 1..];
    } else {
      assert f[i..][0] == '"';
      assert text[0] == if j < |f| then f[j] else t[0];
      if j < |f| {
        assert text[1] == if j + 1 < |f| then f[j + 1] else t[0];
      }
    }
  }

  /** A raw name is read back as itself only when it is plain. */
  lemma RawFieldReads(f: string, t: string)
    requires EndsField(t)
    ensures ReadField(f + t).Some? && ReadField(f + t).value.0 == f ==> Plain(f) && ReadField(f + t).value.1 == t
  {
    var text := f + t;
    if f != "" && f[0] == '"' {
      QuoteNeverEchoes(f, t, 0, 1);
      assert text[1..] == f[1..] + t && f[0..] == f;
    } else {
      assert text[0] == if f == "" then t[0] else f[0];
      if text[..PlainPrefix(text)] == f {
        assert |f| == PlainPrefix(text) && text[|f|..] == t;
      }
    }
  }

  lemma {:induction false} RawHeaderReads(columns: seq<string>, rest: string)
    requires columns != []
    ensures var r := ReadRecord(Join(columns, ',') + "\n" + rest);
      r.Some? && r.value.0 == columns ==> PlainHeader(columns)
  {
    var text := Join(columns, ',') + "\n" + rest;
    var f := columns[0];
    if |columns| == 1 {
      RawFieldReads(f, "\n" + rest);
      assert text == f + ("\n" + rest);
    } else {
      var more := Join(columns[1..], ',') + "\n" + rest;
      RawFieldReads(f, "," + more);
      RawHeaderReads(columns[1..], rest);
      assert text == f + ("," + more);
      assert ("," + more)[1..] == more;
      var r := ReadRecord(text);
      if r.Some? && r.value.0 == columns {
        assert columns == [f] + columns[1..];
      }
    }
  }

  // ---------------------------------------------------------------- the round trip

  /** Under each column what the record holds there; nothing where it has no value. */
  predicate ShowsRecord(fields: seq<string>, columns: seq<string>, r: Record) {
    && |fields| == |columns|
    && forall j :: 0 <= j < |columns| ==>
         fields[j] == if columns[j] in r && r[columns[j]].Some? then r[columns[j]].value else ""
  }

  /** The header, and then the records one by one. */
  predicate Shows(got: seq<seq<string>>, columns: seq<string>, rows: seq<Record>) {
    && |got| == 1 + |rows| && got[0] == columns
    && forall i :: 0 <= i < |rows| ==> ShowsRecord(got[1..][i], columns, rows[i])
  }

  lemma {:induction false} TextsAt(r: Record, columns: seq<string>, j: nat)
    requires j < |columns|
    ensures Texts(r, columns)[j] == if columns[j] in r && r[columns[j]].Some? then r[columns[j]].value else ""
  {
    if j > 0 {
      TextsAt(r, columns[1..], j - 1);
    }
  }

  lemma {:induction false} AllTextsAt(columns: seq<string>, rows: seq<Record>, i: nat)
    requires i < |rows|
    ensures AllTexts(columns, rows)[i] == Texts(rows[i], columns)
  {
    if i > 0 {
      AllTextsAt(columns, rows[1..], i - 1);
    }
  }

  lemma ShowsRecordIsTexts(fields: seq<string>, columns: seq<string>, r: Record)
    ensures ShowsRecord(fields, columns, r) <==> fields == Texts(r, columns)
  {
    hide Texts;
    forall j | 0 <= j < |columns|
      ensures Texts(r, columns)[j] == if columns[j] in r && r[columns[j]].Some? then r[columns[j]].value else ""
    {
      TextsAt(r, columns, j);
    }
  }

  lemma ShowsIsTexts(got: seq<seq<string>>, columns: seq<string>, rows: seq<Record>)
    ensures Shows(got, columns, rows) <==> got == [columns] + AllTexts(columns, rows)
  {
    hide AllTexts, Texts, ShowsRecord;
    var want := AllTexts(columns, rows);
    forall i | 0 <= i < |rows| && |got| == 1 + |rows|
      ensures ShowsRecord(got[1..][i], columns, rows[i]) <==> got[1..][i] == want[i]
    {
      AllTextsAt(columns, rows, i);
      ShowsRecordIsTexts(got[1..][i], columns, rows[i]);
    }
    assert |got| == 1 + |rows| ==> (got[1..] == want <==> forall i :: 0 <= i < |rows| ==> got[1..][i] == want[i]);
    assert got != [] ==> got == [got[0]] + got[1..];
  }

  /**
   Reading what the writer wrote gives the header and then exactly what the
   records hold, whatever commas, quotes and line feeds that is, for every
   table that has a column and a row and whose column names need no quoting;
   and for no other table.
   */
  lemma RoundTrip(columns: seq<string>, rows: seq<Record>)
    ensures Read(ToCsv(columns, rows)).Some? && Shows(Read(ToCsv(columns, rows)).value, columns, rows)
      <==> columns != [] && rows != [] && forall c :: c in columns ==> ',' !in c && '"' !in c && '\n' !in c
  {
    PlainNames(columns);
    TextsRoundTrip(columns, rows);
    ShowsIsTexts([columns] + AllTexts(columns, rows), columns, rows);
    hide Read, ToCsv, PlainHeader, Shows, AllTexts;
    if Read(ToCsv(columns, rows)).Some? {
      ShowsIsTexts(Read(ToCsv(columns, rows)).value, columns, rows);
    }
  }

  lemma PlainNames(columns: seq<string>)
    ensures PlainHeader(columns) <==> forall c :: c in columns ==> ',' !in c && '"' !in c && '\n' !in c
  {
    forall c | c in columns ensures Plain(c) <==> ',' !in c && '"' !in c && '\n' !in c {
      WhatIsQuoted(c);
    }
    assert PlainHeader(columns) <==> forall c :: c in columns ==> Plain(c);
  }

  /** A value is written as it stands unless it holds a comma, a quote or a line feed; then it stands between quotes. */
  lemma WhatIsQuoted(s: string)
    ensures Plain(s) <==> ',' !in s && '"' !in s && '\n' !in s
    ensures Escape(None) == ""
    ensures ',' !in s && '"' !in s && '\n' !in s ==> Escape(Some(s)) == s
    ensures ',' in s || '"' in s || '\n' in s ==> Escape(Some(s)) == "\"" + DoubleQuotes(s) + "\""
  {
  }

  lemma TextsRoundTrip(columns: seq<string>, rows: seq<Record>)
    ensures Read(ToCsv(columns, rows)) == Some([columns] + AllTexts(columns, rows))
      <==> columns != [] && rows != [] && PlainHeader(columns)
  {
    var body := Join(Lines(columns, rows), '\n') + "\n";
    var text := ToCsv(columns, rows);
    assert text == Join(columns, ',') + "\n" + body;
    if columns == [] {
      assert text != "" && Read(text).Some? ==> |Read(text).value[0]| >= 1;
    } else if rows == [] {
      EmptyTableReads(columns);
      assert [columns] + AllTexts(columns, rows) == [columns];
    } else if PlainHeader(columns) {
      PlainTextsAreThemselves(columns);
      RecordReads(columns, body);
      RowsRead(columns, rows);
    } else {
      RawHeaderReads(columns, body);
    }
  }

  /** Without rows the writer still ends a record: the reader sees one empty field that nobody wrote. */
  lemma EmptyTableReads(columns: seq<string>)
    requires columns != []
    ensures Read(ToCsv(columns, [])) != Some([columns])
    ensures PlainHeader(columns) ==> Read(ToCsv(columns, [])) == Some([columns, [""]])
  {
    var text := ToCsv(columns, []);
    assert text == Join(columns, ',') + "\n" + "\n";
    RawHeaderReads(columns, "\n");
    assert ReadField("\n") == Some(("", "\n"));
    assert ReadRecord("\n") == Some(([""], ""));
    var none: seq<seq<string>> := [];
    assert Read("") == Some(none);
    assert Read("\n") == Some([[""]] + none);
    assert [[""]] + none == [[""]];
    if PlainHeader(columns) {
      PlainTextsAreThemselves(columns);
      RecordReads(columns, "\n");
      assert Read(text) == Some([columns] + [[""]]);
      assert [columns] + [[""]] == [columns, [""]];
    } else if Read(text).Some? {
      assert Read(text).value[0] == ReadRecord(text).value.0;
    }
  }

  // ---------------------------------------------------------------- the customer list

  /** One application of the customer export, newest first in the input. */
  datatype App = App(emailHash: string, row: Record)

  predicate IsFirst(apps: seq<App>, i: nat)
    requires i < |apps|
  {
    forall j :: 0 <= j < i ==> apps[j].emailHash != apps[i].emailHash
  }

  /** The first application of every customer, in the order of the input. */
  function Firsts(apps: seq<App>): seq<App> {
    if apps == [] then []
    else
      var n := |apps| - 1;
      Firsts(apps[..n]) + (if IsFirst(apps, n) then [apps[n]] else [])
  }

  method Customers(apps: seq<App>) returns (rows: seq<App>)
    ensures rows == Firsts(apps)
  {
    var seen: set<string> := {};
    rows := [];
    var i := 0;
    while i < |apps|
      invariant 0 <= i <= |apps|
      invariant seen == set j | 0 <= j < i :: apps[j].emailHash
      invariant rows == Firsts(apps[..i])
    {
      var key := apps[i].emailHash;
      assert apps[..i + 1][..i] == apps[..i];
      assert key in seen <==> !IsFirst(apps[..i + 1], i);
      if key !in seen {
        seen := seen + {key};
        rows := rows + [apps[i]];
      }
      i := i + 1;
    }
    assert apps[..i] == apps;
  }

  lemma PrefixFirst(apps: seq<App>, i: nat)
    requires i < |apps| - 1
    ensures IsFirst(apps[..|apps| - 1], i) == IsFirst(apps, i)
  {
    assert forall j | 0 <= j < |apps| - 1 :: apps[..|apps| - 1][j] == apps[j];
  }

  /** What is in the list is the first of its customer, */
  lemma {:induction false} FirstsAreFirst(apps: seq<App>, a: App) returns (i: nat)
    requires a in Firsts(apps)
    ensures i < |apps| && apps[i] == a && IsFirst(apps, i)
  {
    var n := |apps| - 1;
    if a in Firsts(apps[..n]) {
      i := FirstsAreFirst(apps[..n], a);
      PrefixFirst(apps, i);
    } else {
      i := n;
    }
  }

  /** and no customer is in it twice. */
  lemma {:induction false} FirstsDiffer(apps: seq<App>, i: nat, j: nat)
    requires i < j < |Firsts(apps)|
    ensures Firsts(apps)[i].emailHash != Firsts(apps)[j].emailHash
  {
    var n := |apps| - 1;
    if j < |Firsts(apps[..n])| {
      FirstsDiffer(apps[..n], i, j);
    } else {
      var k := FirstsAreFirst(apps[..n], Firsts(apps[..n])[i]);
      assert apps[..n][k] == apps[k];
    }
  }

  /** The application is the first of its customer. */
  predicate Heads(apps: seq<App>, i: nat, a: App) {
    i < |apps| && apps[i] == a && forall j :: 0 <= j < i ==> apps[j].emailHash != a.emailHash
  }

  predicate Lists(list: seq<App>, k: nat, emailHash: string) { k < |list| && list[k].emailHash == emailHash }

  /** The customers are listed in the order in which their first applications stand. */
  lemma {:induction false} FirstsKeepTheOrder(apps: seq<App>, i: nat, j: nat) returns (p: nat, q: nat)
    requires i < j < |Firsts(apps)|
    ensures p < q < |apps|
    ensures Heads(apps, p, Firsts(apps)[i]) && Heads(apps, q, Firsts(apps)[j])
  {
    var n := |apps| - 1;
    if j < |Firsts(apps[..n])| {
      p, q := FirstsKeepTheOrder(apps[..n], i, j);
      PrefixFirst(apps, p);
      PrefixFirst(apps, q);
    } else {
      q := n;
      p := FirstsAreFirst(apps[..n], Firsts(apps[..n])[i]);
      PrefixFirst(apps, p);
    }
  }

  lemma {:induction false} CustomerIsListed(apps: seq<App>, i: nat) returns (k: nat)
    requires i < |apps|
    ensures Lists(Firsts(apps), k, apps[i].emailHash)
  {
    var n := |apps| - 1;
    if i < n {
      k := CustomerIsListed(apps[..n], i);
    } else if IsFirst(apps, n) {
      k := |Firsts(apps)| - 1;
    } else {
      var j :| 0 <= j < n && apps[j].emailHash == apps[n].emailHash;
      k := CustomerIsListed(apps[..n], j);
    }
  }

  /** Every customer appears exactly once, by the newest application. */
  lemma FirstsAreOnePerCustomer(apps: seq<App>)
    ensures var list := Firsts(apps);
      && (forall i, j :: 0 <= i < j < |list| ==> list[i].emailHash != list[j].emailHash)
      && (forall a :: a in apps ==> exists k: nat :: Lists(list, k, a.emailHash))
      && (forall a :: a in list ==> exists i: nat :: Heads(apps, i, a))
  {
    hide Firsts;
    var list := Firsts(apps);
    forall i, j | 0 <= i < j < |list| ensures list[i].emailHash != list[j].emailHash {
      FirstsDiffer(apps, i, j);
    }
    forall a | a in apps ensures exists k: nat :: Lists(list, k, a.emailHash) {
      var i :| 0 <= i < |apps| && apps[i] == a;
      var k := CustomerIsListed(apps, i);
    }
    forall a | a in list ensures exists i: nat :: Heads(apps, i, a) {
      var i := FirstsAreFirst(apps, a);
      assert Heads(apps, i, a);
    }
  }
}
