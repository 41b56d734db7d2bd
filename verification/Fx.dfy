/**
 The FX service: rates found directly, inversely or through the reporting
 currency, over exact rationals (apps/api/src/domains/fx/fx.service.ts), and
 the upserts that feed it (apps/api/src/domains/fx/fx.routes.ts).
 */
module Fx {
  import opened Wrappers
  import opened Calendar

  type Currency = string

  /** One unit of base is `rate` units of quote; asOf is the midnight that starts the day. */
  datatype Row = Row(asOf: int, base: Currency, quote: Currency, rate: real)

  /** A decimal, or the Infinity and NaN that dividing by a zero rate leads to. */
  datatype Decimal = Finite(value: real) | NotFinite

  datatype FxError = NoRate(from: Currency, to: Currency)

  function Reciprocal(r: real): Decimal { if r == 0.0 then NotFinite else Finite(1.0 / r) }

  function Times(a: Decimal, b: Decimal): Decimal {
    if a.Finite? && b.Finite? then Finite(a.value * b.value) else NotFinite
  }

  // ---------------------------------------------------------------- the table

  predicate SameKey(r: Row, asOf: int, base: Currency, quote: Currency) {
    r.asOf == asOf && r.base == base && r.quote == quote
  }

  /** A rate as the admin routes receive it. */
  datatype Quoted = Quoted(day: int, base: Currency, quote: Currency, rate: real)

  predicate Prices(q: Quoted, asOf: int, base: Currency, quote: Currency) {
    q.day * MS_PER_DAY == asOf && q.base == base && q.quote == quote
  }

  /** The upsert on (asOf, base, quote). */
  function Upsert(rows: seq<Row>, day: int, base: Currency, quote: Currency, rate: real): seq<Row> {
    if rows == [] then [Row(day * MS_PER_DAY, base, quote, rate)]
    else if SameKey(rows[0], day * MS_PER_DAY, base, quote) then [rows[0].(rate := rate)] + rows[1..]
    else [rows[0]] + Upsert(rows[1..], day, base, quote, rate)
  }

  /** At most one row per key, and every asOf a midnight. */
  predicate TableOk(rows: seq<Row>) {
    && (forall i :: 0 <= i < |rows| ==> rows[i].asOf % MS_PER_DAY == 0)
    && (forall i, j :: 0 <= i < j < |rows| ==> !SameKey(rows[j], rows[i].asOf, rows[i].base, rows[i].quote))
  }

  predicate Candidate(r: Row, from: Currency, to: Currency, ts: int) {
    r.base == from && r.quote == to && r.asOf <= ts
  }

  /** lookupDirect: the latest row of the pair at or before ts. */
  function LookupDirect(rows: seq<Row>, from: Currency, to: Currency, ts: int): (r: Option<Row>)
    ensures r.Some? ==> r.value in rows && Candidate(r.value, from, to, ts)
    ensures forall x :: x in rows && Candidate(x, from, to, ts) ==> r.Some? && x.asOf <= r.value.asOf
  {
    if rows == [] then None
    else
      var rest := LookupDirect(rows[1..], from, to, ts);
      if Candidate(rows[0], from, to, ts) && (rest.None? || rest.value.asOf <= rows[0].asOf) then Some(rows[0])
      else rest
  }

  /** lookupAny: directly or inversely. */
  function LookupAny(rows: seq<Row>, from: Currency, to: Currency, ts: int): Option<Decimal> {
    if from == to then Some(Finite(1.0))
    else if LookupDirect(rows, from, to, ts).Some? then Some(Finite(LookupDirect(rows, from, to, ts).value.rate))
    else if LookupDirect(rows, to, from, ts).Some? then Some(Reciprocal(LookupDirect(rows, to, from, ts).value.rate))
    else None
  }

  /** getRate without its cache. */
  function Rate(rows: seq<Row>, reporting: Currency, from: Currency, to: Currency, ts: int): Result<Decimal, FxError> {
    if LookupAny(rows, from, to, ts).Some? then Ok(LookupAny(rows, from, to, ts).value)
    else if from != reporting && to != reporting
      && LookupAny(rows, from, reporting, ts).Some? && LookupAny(rows, reporting, to, ts).Some? then
      Ok(Times(LookupAny(rows, from, reporting, ts).value, LookupAny(rows, reporting, to, ts).value))
    else Err(NoRate(from, to))
  }

  function Convert(rows: seq<Row>, reporting: Currency, amount: real, from: Currency, to: Currency, ts: int)
    : Result<Decimal, FxError>
  {
    if from == to then Ok(Finite(amount))
    else
      match Rate(rows, reporting, from, to, ts)
      case Err(e) => Err(e)
      case Ok(rate) => Ok(Times(Finite(amount), rate))
  }

  // ---------------------------------------------------------------- what upserts keep

  lemma {:induction false} UpsertKeys(rows: seq<Row>, day: int, base: Currency, quote: Currency, rate: real)
    ensures var after := Upsert(rows, day, base, quote, rate);
      && |rows| <= |after| <= |rows| + 1
      && (forall i :: 0 <= i < |rows| ==>
           && SameKey(after[i], rows[i].asOf, rows[i].base, rows[i].quote)
           && (!SameKey(rows[i], day * MS_PER_DAY, base, quote) ==> after[i] == rows[i]))
      && (|after| == |rows| + 1 ==> after[|rows|] == Row(day * MS_PER_DAY, base, quote, rate))
      && (|after| == |rows| + 1 <==> forall i :: 0 <= i < |rows| ==> !SameKey(rows[i], day * MS_PER_DAY, base, quote))
      && Row(day * MS_PER_DAY, base, quote, rate) in after
  {
    if rows != [] && !SameKey(rows[0], day * MS_PER_DAY, base, quote) {
      UpsertKeys(rows[1..], day, base, quote, rate);
    }
  }

  lemma UpsertKeepsTable(rows: seq<Row>, day: int, base: Currency, quote: Currency, rate: real)
    requires TableOk(rows)
    ensures TableOk(Upsert(rows, day, base, quote, rate))
  {
    UpsertKeys(rows, day, base, quote, rate);
    var after := Upsert(rows, day, base, quote, rate);
    forall i | 0 <= i < |after| ensures after[i].asOf % MS_PER_DAY == 0 {
      assert i < |rows| || after[i].asOf == day * MS_PER_DAY;
    }
  }

  /** What the table says of one key. */
  function RateAt(rows: seq<Row>, asOf: int, base: Currency, quote: Currency): Option<real> {
    if rows == [] then None
    else if SameKey(rows[0], asOf, base, quote) then Some(rows[0].rate)
    else RateAt(rows[1..], asOf, base, quote)
  }

  /** An upsert sets its key and no other. */
  lemma {:induction false} UpsertSetsOneKey(
    rows: seq<Row>, q: Quoted, asOf: int, base: Currency, quote: Currency)
    ensures RateAt(Upsert(rows, q.day, q.base, q.quote, q.rate), asOf, base, quote) ==
      if Prices(q, asOf, base, quote) then Some(q.rate) else RateAt(rows, asOf, base, quote)
  {
    if rows != [] {
      UpsertSetsOneKey(rows[1..], q, asOf, base, quote);
    }
  }

  /** A bulk call over the table: the quotes one after the other. */
  function UpsertAll(rows: seq<Row>, quotes: seq<Quoted>): seq<Row> {
    if quotes == [] then rows
    else
      var q := quotes[|quotes| - 1];
      Upsert(UpsertAll(rows, quotes[..|quotes| - 1]), q.day, q.base, q.quote, q.rate)
  }

  /** After a bulk call a key has the rate of its last quote, the i-th, or where i is -1 for want of one the rate it had. */
  lemma {:induction false} LastQuoteWins(
    rows: seq<Row>, quotes: seq<Quoted>, i: int, asOf: int, base: Currency, quote: Currency)
    requires -1 <= i < |quotes| && (i >= 0 ==> Prices(quotes[i], asOf, base, quote))
    requires forall j :: i < j < |quotes| ==> !Prices(quotes[j], asOf, base, quote)
    ensures RateAt(UpsertAll(rows, quotes), asOf, base, quote) ==
      if i < 0 then RateAt(rows, asOf, base, quote) else Some(quotes[i].rate)
  {
    if quotes != [] {
      var n := |quotes| - 1;
      UpsertSetsOneKey(UpsertAll(rows, quotes[..n]), quotes[n], asOf, base, quote);
      hide Upsert, RateAt;
      if i < n {
        LastQuoteWins(rows, quotes[..n], i, asOf, base, quote);
      }
    }
  }

  /** The rate table behind the admin routes. */
  class RateTable {
    var rows: seq<Row>

    constructor ()
      ensures rows == []
    {
      rows := [];
    }

    method Submit(q: Quoted)
      modifies this
      ensures rows == Upsert(old(rows), q.day, q.base, q.quote, q.rate)
    {
      rows := Upsert(rows, q.day, q.base, q.quote, q.rate);
    }

    method SubmitBulk(quotes: seq<Quoted>) returns (upserted: nat)
      modifies this
      ensures rows == UpsertAll(old(rows), quotes) && upserted == |quotes|
    {
      upserted := 0;
      while upserted < |quotes|
        invariant upserted <= |quotes| && rows == UpsertAll(old(rows), quotes[..upserted])
      {
        Submit(quotes[upserted]);
        assert quotes[..upserted + 1][..upserted] == quotes[..upserted];
        upserted := upserted + 1;
      }
      assert quotes[..|quotes|] == quotes;
    }
  }

  /** Midnights: every instant of a UTC day sees the same latest row, so a key by day loses nothing. */
  lemma {:induction false} LookupDependsOnDay(rows: seq<Row>, from: Currency, to: Currency, s: int, t: int)
    requires TableOk(rows) && Day(s) == Day(t)
    ensures LookupDirect(rows, from, to, s) == LookupDirect(rows, from, to, t)
  {
    if rows != [] {
      LookupDependsOnDay(rows[1..], from, to, s, t);
      var d := rows[0].asOf / MS_PER_DAY;
      assert rows[0].asOf == d * MS_PER_DAY;
      assert rows[0].asOf <= s <==> d <= Day(s);
      assert rows[0].asOf <= t <==> d <= Day(t);
    }
  }

  lemma RateDependsOnDay(rows: seq<Row>, reporting: Currency, from: Currency, to: Currency, s: int, t: int)
    requires TableOk(rows) && Day(s) == Day(t)
    ensures Rate(rows, reporting, from, to, s) == Rate(rows, reporting, from, to, t)
  {
    hide LookupDirect, TableOk, Day;
    LookupDependsOnDay(rows, from, to, s, t);
    LookupDependsOnDay(rows, to, from, s, t);
    LookupDependsOnDay(rows, from, reporting, s, t);
    LookupDependsOnDay(rows, reporting, from, s, t);
    LookupDependsOnDay(rows, to, reporting, s, t);
    LookupDependsOnDay(rows, reporting, to, s, t);
  }

  // ---------------------------------------------------------------- which row decides

  /** The row is of the pair, not after the instant, and the latest such. */
  predicate IsLatest(rows: seq<Row>, r: Row, base: Currency, quote: Currency, ts: int) {
    && r in rows && r.base == base && r.quote == quote && r.asOf <= ts
    && forall x :: x in rows && x.base == base && x.quote == quote && x.asOf <= ts ==> x.asOf <= r.asOf
  }

  predicate NoneYet(rows: seq<Row>, base: Currency, quote: Currency, ts: int) {
    forall x :: x in rows && x.base == base && x.quote == quote ==> ts < x.asOf
  }

  lemma LatestIsFound(rows: seq<Row>, r: Row, base: Currency, quote: Currency, ts: int)
    requires TableOk(rows)
    ensures IsLatest(rows, r, base, quote, ts) ==> LookupDirect(rows, base, quote, ts) == Some(r)
    ensures NoneYet(rows, base, quote, ts) <==> LookupDirect(rows, base, quote, ts).None?
  {
    hide LookupDirect;
    var found := LookupDirect(rows, base, quote, ts);
    if IsLatest(rows, r, base, quote, ts) {
      assert Candidate(r, base, quote, ts);
      var i :| 0 <= i < |rows| && rows[i] == r;
      var j :| 0 <= j < |rows| && rows[j] == found.value;
      OneRowAKey(rows, i, j);
    }
    if found.None? {
      forall x | x in rows && x.base == base && x.quote == quote ensures ts < x.asOf {
        assert !Candidate(x, base, quote, ts);
      }
    }
  }

  lemma OneRowAKey(rows: seq<Row>, i: nat, j: nat)
    requires TableOk(rows) && i < |rows| && j < |rows| && SameKey(rows[i], rows[j].asOf, rows[j].base, rows[j].quote)
    ensures i == j
  {
    if i < j {
      assert SameKey(rows[j], rows[i].asOf, rows[i].base, rows[i].quote);
    }
  }

  /**
   Whatever else the table holds: the latest row of the pair decides; without
   one, the latest of the inverse pair, by its reciprocal; and with neither, the
   product of the two legs through the reporting currency.
   */
  lemma WhichRowDecides(rows: seq<Row>, reporting: Currency, from: Currency, to: Currency, ts: int, r: Row, q: Row)
    requires TableOk(rows) && from != to
    ensures IsLatest(rows, r, from, to, ts) ==> Rate(rows, reporting, from, to, ts) == Ok(Finite(r.rate))
    ensures NoneYet(rows, from, to, ts) && IsLatest(rows, r, to, from, ts) && r.rate != 0.0 ==>
      Rate(rows, reporting, from, to, ts) == Ok(Finite(1.0 / r.rate))
    ensures
      && NoneYet(rows, from, to, ts) && NoneYet(rows, to, from, ts) && from != reporting && to != reporting
      && IsLatest(rows, r, from, reporting, ts) && IsLatest(rows, q, reporting, to, ts) ==>
      Rate(rows, reporting, from, to, ts) == Ok(Times(Finite(r.rate), Finite(q.rate)))
  {
    LatestIsFound(rows, r, from, to, ts);
    LatestIsFound(rows, r, to, from, ts);
    LatestIsFound(rows, r, from, reporting, ts);
    LatestIsFound(rows, q, reporting, to, ts);
    hide LookupDirect, TableOk, IsLatest, NoneYet, Times;
  }

  // ---------------------------------------------------------------- availability

  predicate Linked(rows: seq<Row>, a: Currency, b: Currency, ts: int) {
    a == b || LookupDirect(rows, a, b, ts).Some? || LookupDirect(rows, b, a, ts).Some?
  }

  /** A rate is found exactly when a row links the pair, or rows link both sides to the reporting currency. */
  lemma WhenAvailable(rows: seq<Row>, reporting: Currency, from: Currency, to: Currency, ts: int)
    ensures Rate(rows, reporting, from, to, ts).Ok? <==>
      Linked(rows, from, to, ts) || (Linked(rows, from, reporting, ts) && Linked(rows, reporting, to, ts))
    ensures Rate(rows, reporting, from, to, ts).Err? ==> Rate(rows, reporting, from, to, ts).error == NoRate(from, to)
  {
    hide LookupDirect;
  }

  /** Availability does not depend on the direction, and a later instant never loses it. */
  lemma AvailabilityGrows(rows: seq<Row>, reporting: Currency, from: Currency, to: Currency, s: int, t: int)
    requires s <= t
    ensures Rate(rows, reporting, from, to, s).Ok? <==> Rate(rows, reporting, to, from, s).Ok?
    ensures Rate(rows, reporting, from, to, s).Ok? ==> Rate(rows, reporting, from, to, t).Ok?
  {
    WhenAvailable(rows, reporting, from, to, s);
    WhenAvailable(rows, reporting, to, from, s);
    WhenAvailable(rows, reporting, from, to, t);
    LinksLast(rows, from, to, s, t);
    LinksLast(rows, from, reporting, s, t);
    LinksLast(rows, reporting, to, s, t);
  }

  lemma LinksLast(rows: seq<Row>, a: Currency, b: Currency, s: int, t: int)
    requires s <= t
    ensures Linked(rows, a, b, s) ==> Linked(rows, a, b, t)
  {
    var ab, ba := LookupDirect(rows, a, b, s), LookupDirect(rows, b, a, s);
    if ab.Some? {
      assert Candidate(ab.value, a, b, t);
    } else if ba.Some? {
      assert Candidate(ba.value, b, a, t);
    }
  }

  /** Nor does a further upsert. */
  lemma UpsertsLoseNoRate(
    rows: seq<Row>, day: int, base: Currency, quote: Currency, rate: real,
    reporting: Currency, from: Currency, to: Currency, ts: int)
    requires Rate(rows, reporting, from, to, ts).Ok?
    ensures Rate(Upsert(rows, day, base, quote, rate), reporting, from, to, ts).Ok?
  {
    var after := Upsert(rows, day, base, quote, rate);
    WhenAvailable(rows, reporting, from, to, ts);
    WhenAvailable(after, reporting, from, to, ts);
    UpsertKeepsRows(rows, day, base, quote, rate, from, to, ts);
    UpsertKeepsRows(rows, day, base, quote, rate, from, reporting, ts);
    UpsertKeepsRows(rows, day, base, quote, rate, reporting, to, ts);
    hide Rate, Upsert;
  }

  lemma UpsertKeepsRows(
    rows: seq<Row>, day: int, base: Currency, quote: Currency, rate: real, a: Currency, b: Currency, ts: int)
    ensures Linked(rows, a, b, ts) ==> Linked(Upsert(rows, day, base, quote, rate), a, b, ts)
  {
    UpsertKeepsRow(rows, day, base, quote, rate, a, b, ts);
    UpsertKeepsRow(rows, day, base, quote, rate, b, a, ts);
  }

  lemma UpsertKeepsRow(
    rows: seq<Row>, day: int, base: Currency, quote: Currency, rate: real, a: Currency, b: Currency, ts: int)
    ensures LookupDirect(rows, a, b, ts).Some? ==> LookupDirect(Upsert(rows, day, base, quote, rate), a, b, ts).Some?
  {
    hide LookupDirect, Upsert;
    var after := Upsert(rows, day, base, quote, rate);
    var found := LookupDirect(rows, a, b, ts);
    UpsertKeys(rows, day, base, quote, rate);
    if found.Some? {
      var i :| 0 <= i < |rows| && rows[i] == found.value;
      assert after[i] in after && Candidate(after[i], a, b, ts);
    }
  }

  // ---------------------------------------------------------------- path independence

  type Valuation = Currency -> real

  ghost predicate Positive(v: Valuation) { forall c :: v(c) > 0.0 }

  /** Every latest row at ts prices its pair as v does. */
  ghost predicate Agrees(rows: seq<Row>, v: Valuation, ts: int) {
    forall a, b :: LookupDirect(rows, a, b, ts).Some? ==> LookupDirect(rows, a, b, ts).value.rate * v(b) == v(a)
  }

  lemma Quotient(x: real, y: real, r: real)
    requires y > 0.0 && r * y == x
    ensures r == x / y
  {
  }

  lemma InverseQuotient(x: real, y: real, r: real)
    requires x > 0.0 && y > 0.0 && r * x == y
    ensures r != 0.0 && 1.0 / r == x / y
  {
    var q := 1.0 / r;
    assert q * r == 1.0;
    assert q * y == q * (r * x) == (q * r) * x == x;
    Quotient(x, y, q);
  }

  lemma QuotientsCompose(x: real, y: real, z: real)
    requires y > 0.0 && z > 0.0
    ensures (x / y) * (y / z) == x / z
  {
    var p, q := x / y, y / z;
    assert p * y == x && q * z == y;
    assert (p * q) * z == p * (q * z) == x;
    Quotient(x, z, p * q);
  }

  lemma AnyIsTheValuation(rows: seq<Row>, v: Valuation, from: Currency, to: Currency, ts: int)
    requires Positive(v) && Agrees(rows, v, ts)
    ensures var r := LookupAny(rows, from, to, ts); r.Some? ==> r.value == Finite(v(from) / v(to))
  {
    hide LookupDirect;
    var direct, inverse := LookupDirect(rows, from, to, ts), LookupDirect(rows, to, from, ts);
    if from != to {
      if direct.Some? {
        Quotient(v(from), v(to), direct.value.rate);
      } else if inverse.Some? {
        InverseQuotient(v(from), v(to), inverse.value.rate);
      }
    }
  }

  /** Whatever path finds it, a rate is the quotient of the two values. */
  lemma RateIsTheValuation(rows: seq<Row>, reporting: Currency, v: Valuation, from: Currency, to: Currency, ts: int)
    requires Positive(v) && Agrees(rows, v, ts)
    ensures var r := Rate(rows, reporting, from, to, ts); r.Ok? ==> r.value == Finite(v(from) / v(to))
  {
    hide LookupAny, Agrees;
    AnyIsTheValuation(rows, v, from, to, ts);
    AnyIsTheValuation(rows, v, from, reporting, ts);
    AnyIsTheValuation(rows, v, reporting, to, ts);
    QuotientsCompose(v(from), v(reporting), v(to));
  }

  ghost function Ratio(v: Valuation, a: Currency, b: Currency): Decimal
    requires Positive(v)
  {
    Finite(v(a) / v(b))
  }

  lemma RatiosCompose(v: Valuation, a: Currency, b: Currency, c: Currency)
    requires Positive(v)
    ensures Times(Ratio(v, a, b), Ratio(v, b, c)) == Ratio(v, a, c)
    ensures Ratio(v, a, a) == Finite(1.0)
  {
    QuotientsCompose(v(a), v(b), v(c));
  }

  lemma TimesIsAssociative(x: Decimal, y: Decimal, z: Decimal)
    ensures Times(Times(x, y), z) == Times(x, Times(y, z))
    ensures Times(x, Finite(1.0)) == x
    ensures x.Finite? && y.Finite? ==> Times(x, y).Finite?
  {
  }

  lemma ConvertIsTheValuation(
    rows: seq<Row>, reporting: Currency, v: Valuation, amount: real, from: Currency, to: Currency, ts: int)
    requires Positive(v) && Agrees(rows, v, ts) && Rate(rows, reporting, from, to, ts).Ok?
    ensures Convert(rows, reporting, amount, from, to, ts) == Ok(Times(Finite(amount), Ratio(v, from, to)))
  {
    hide Rate, Agrees, Times;
    RateIsTheValuation(rows, reporting, v, from, to, ts);
    RatiosCompose(v, from, to, to);
    TimesIsAssociative(Finite(amount), Ratio(v, from, to), Finite(1.0));
  }

  /** Conversions compose and invert: going through a third currency, or there and back, changes nothing. */
  lemma ConversionsCompose(
    rows: seq<Row>, reporting: Currency, v: Valuation, amount: real, a: Currency, b: Currency, c: Currency, ts: int)
    requires Positive(v) && Agrees(rows, v, ts)
    requires Rate(rows, reporting, a, b, ts).Ok? && Rate(rows, reporting, b, c, ts).Ok?
    ensures var ab := Convert(rows, reporting, amount, a, b, ts);
      && ab.Ok? && ab.value.Finite?
      && (Rate(rows, reporting, a, c, ts).Ok? ==>
           Convert(rows, reporting, ab.value.value, b, c, ts) == Convert(rows, reporting, amount, a, c, ts))
      && Convert(rows, reporting, ab.value.value, b, a, ts) == Ok(Finite(amount))
  {
    hide Rate, Agrees, Convert, Times, Ratio;
    AvailabilityGrows(rows, reporting, a, b, ts, ts);
    ConvertIsTheValuation(rows, reporting, v, amount, a, b, ts);
    RatiosCompose(v, b, a, a);
    RatiosCompose(v, a, b, c);
    RatiosCompose(v, a, b, a);
    RatioIsFinite(v, a, b);
    TimesIsAssociative(Finite(amount), Ratio(v, a, b), Ratio(v, b, c));
    TimesIsAssociative(Finite(amount), Ratio(v, a, b), Ratio(v, b, a));
    var ab := Convert(rows, reporting, amount, a, b, ts).value.value;
    ConvertIsTheValuation(rows, reporting, v, ab, b, c, ts);
    ConvertIsTheValuation(rows, reporting, v, ab, b, a, ts);
    if Rate(rows, reporting, a, c, ts).Ok? {
      ConvertIsTheValuation(rows, reporting, v, amount, a, c, ts);
    }
  }

  lemma RatioIsFinite(v: Valuation, a: Currency, b: Currency)
    requires Positive(v)
    ensures Ratio(v, a, b).Finite?
  {
  }

  // ---------------------------------------------------------------- without a valuation

  /** How far a pair's two rows are from being reciprocal; 1 when at most one of them is there. */
  function Mismatch(rows: seq<Row>, a: Currency, b: Currency, ts: int): real {
    var ab, ba := LookupDirect(rows, a, b, ts), LookupDirect(rows, b, a, ts);
    if a != b && ab.Some? && ba.Some? then ab.value.rate * ba.value.rate else 1.0
  }

  ghost predicate PositiveRates(rows: seq<Row>) { forall i :: 0 <= i < |rows| ==> rows[i].rate > 0.0 }

  lemma LegMismatch(rows: seq<Row>, a: Currency, b: Currency, ts: int)
    requires PositiveRates(rows) && LookupAny(rows, a, b, ts).Some?
    ensures var p, q := LookupAny(rows, a, b, ts), LookupAny(rows, b, a, ts);
      q.Some? && p.value.Finite? && q.value.Finite? && p.value.value * q.value.value == Mismatch(rows, a, b, ts)
  {
    var ab, ba := LookupDirect(rows, a, b, ts), LookupDirect(rows, b, a, ts);
    assert ab.Some? ==> ab.value.rate > 0.0;
    assert ba.Some? ==> ba.value.rate > 0.0;
  }

  /**
   There and back over any positive table: the product of the two rates is
   exactly the mismatch of the rows the path uses, so the round trip is the
   identity if and only if that mismatch is 1.
   */
  lemma RoundTripIsTheMismatch(rows: seq<Row>, reporting: Currency, from: Currency, to: Currency, ts: int)
    requires PositiveRates(rows) && Rate(rows, reporting, from, to, ts).Ok?
    ensures var p, q := Rate(rows, reporting, from, to, ts), Rate(rows, reporting, to, from, ts);
      && q.Ok? && p.value.Finite? && q.value.Finite?
      && p.value.value * q.value.value ==
           if Linked(rows, from, to, ts) then Mismatch(rows, from, to, ts)
           else Mismatch(rows, from, reporting, ts) * Mismatch(rows, reporting, to, ts)
  {
    hide LookupAny, Mismatch, Linked;
    LinkedMeansAny(rows, from, to, ts);
    LinkedMeansAny(rows, to, from, ts);
    if Linked(rows, from, to, ts) {
      LegMismatch(rows, from, to, ts);
    } else {
      LegMismatch(rows, from, reporting, ts);
      LegMismatch(rows, reporting, to, ts);
      var p, q := LookupAny(rows, from, reporting, ts).value, LookupAny(rows, reporting, to, ts).value;
      var p', q' := LookupAny(rows, reporting, from, ts).value, LookupAny(rows, to, reporting, ts).value;
      assert Rate(rows, reporting, from, to, ts) == Ok(Times(p, q));
      assert Rate(rows, reporting, to, from, ts) == Ok(Times(q', p'));
      Regroup(p.value, q.value, p'.value, q'.value);
    }
  }

  lemma LinkedMeansAny(rows: seq<Row>, a: Currency, b: Currency, ts: int)
    ensures Linked(rows, a, b, ts) <==> LookupAny(rows, a, b, ts).Some?
    ensures Linked(rows, a, b, ts) <==> Linked(rows, b, a, ts)
  {
  }

  lemma Regroup(p: real, q: real, p': real, q': real)
    ensures (p * q) * (q' * p') == (p * p') * (q * q')
  {
    assert (p * q) * (q' * p') == p * (q * (q' * p'));
    assert q * (q' * p') == p' * (q * q');
    assert p * (p' * (q * q')) == (p * p') * (q * q');
  }
}
