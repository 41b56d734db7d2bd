/**
 The revenue rollup windows and the sums fed to the rollup upsert
 (apps/api/src/workers/aggregation.worker.ts), on the calendar of module
 Calendar.  Amounts are whole cents.
 */
module Rollup {
  import opened Calendar

  datatype Period = DAILY | MONTHLY | YEARLY

  datatype Window = Window(from: int, to: int)

  /** The worker's `boundaries`; both ends are inclusive. */
  function Boundaries(period: Period, anchor: int): Window {
    match period
    case DAILY =>
      var start := anchor - TimeWithinDay(anchor);
      Window(start, start + 86_399_999)
    case MONTHLY =>
      Window(DateUTC(Year(anchor), Month(anchor), 1, 0, 0), DateUTC(Year(anchor), Month(anchor) + 1, 1, 0, 0) - 1)
    case YEARLY =>
      Window(DateUTC(Year(anchor), 0, 1, 0, 0), DateUTC(Year(anchor) + 1, 0, 1, 0, 0) - 1)
  }

  // ---------------------------------------------------------------- the tiling

  /** Two instants the rollups must count together. */
  predicate SamePeriod(period: Period, s: int, t: int) {
    match period
    case DAILY => Day(s) == Day(t)
    case MONTHLY => Year(s) == Year(t) && Month(s) == Month(t)
    case YEARLY => Year(s) == Year(t)
  }

  predicate Within(t: int, w: Window) { w.from <= t <= w.to }

  /** w holds exactly the instants of t's period: windows are the classes of an equivalence, so they tile. */
  ghost predicate IsPeriodOf(period: Period, t: int, w: Window) {
    forall s :: Within(s, w) <==> SamePeriod(period, s, t)
  }

  /** Date.UTC's two-digit years reach the start of a month or year of 0..99, and the end of the year -1. */
  predicate TwoDigit(period: Period, t: int) {
    match period
    case DAILY => false
    case MONTHLY => 0 <= Year(t) <= 99
    case YEARLY => -1 <= Year(t) <= 99
  }

  /** The days of a year, and of a month, as runs of day numbers. */
  lemma YearIsARun(y: int, day: int)
    ensures DayOfDate(y, 0, 1) <= day < DayOfDate(y + 1, 0, 1) <==> CivilFromDay(day).year == y
  {
    YearOfDay(day);
    hide CivilFromDay, DayFromYear, YearFromDay;
    if DayFromYear(y) <= day < DayFromYear(y + 1) {
      YearFromDayUnique(day, y);
    }
  }

  lemma MonthIsARun(y: int, m: int, day: int)
    requires 0 <= m < 12
    ensures DayOfDate(y, m, 1) <= day < DayOfDate(y, m, DaysInMonth(y, m) + 1) <==>
      CivilFromDay(day).year == y && CivilFromDay(day).month == m
  {
    var c := CivilFromDay(day);
    CivilIsUnique(day, c);
    if DayOfDate(y, m, 1) <= day < DayOfDate(y, m, DaysInMonth(y, m) + 1) {
      CivilIsUnique(day, Civil(y, m, day - DayOfDate(y, m, 1) + 1));
    }
  }

  function MonthStart(y: int, m: int): int { MakeDay(y, m, 1) }

  lemma MonthStartIs(y: int, m: int)
    requires 0 <= m < 12
    ensures MonthStart(y, m) == DayOfDate(y, m, 1)
    ensures MonthStart(y, m + 1) == DayOfDate(y, m, DaysInMonth(y, m) + 1)
    ensures MonthStart(y, 0) == DayFromYear(y) && MonthStart(y, 12) == DayFromYear(y + 1)
  {
    MakeDayInYear(y, m, 1);
    MonthEndsWhereNextBegins(Civil(y, m, 1));
    assert 12 / 12 == 1 && 12 % 12 == 0 && 0 / 12 == 0 && 0 % 12 == 0;
    if m < 11 {
      MakeDayInYear(y, m + 1, 1);
    }
  }

  /** A window in days: the instants from the start of one day to the end of the day before another. */
  function DaySpan(first: int, next: int): Window { Window(first * MS_PER_DAY, next * MS_PER_DAY - 1) }

  lemma DaySpanHolds(first: int, next: int, t: int)
    ensures Within(t, DaySpan(first, next)) <==> first <= Day(t) < next
  {
  }

  lemma BoundariesInDays(period: Period, t: int)
    requires !TwoDigit(period, t)
    ensures Boundaries(period, t) == match period
      case DAILY => DaySpan(Day(t), Day(t) + 1)
      case MONTHLY => DaySpan(MonthStart(Year(t), Month(t)), MonthStart(Year(t), Month(t) + 1))
      case YEARLY => DaySpan(MonthStart(Year(t), 0), MonthStart(Year(t) + 1, 0))
  {
  }

  lemma MonthSpanIsPeriod(t: int, s: int)
    requires !TwoDigit(MONTHLY, t)
    ensures Within(s, Boundaries(MONTHLY, t)) <==> SamePeriod(MONTHLY, s, t)
  {
    hide Boundaries, CivilFromDay, DayOfDate, MonthStart, DaySpan;
    var c := CivilFromDay(Day(t));
    BoundariesInDays(MONTHLY, t);
    MonthStartIs(c.year, c.month);
    MonthIsARun(c.year, c.month, Day(s));
    DaySpanHolds(MonthStart(c.year, c.month), MonthStart(c.year, c.month + 1), s);
  }

  lemma YearSpanIsPeriod(t: int, s: int)
    requires !TwoDigit(YEARLY, t)
    ensures Within(s, Boundaries(YEARLY, t)) <==> SamePeriod(YEARLY, s, t)
  {
    hide Boundaries, CivilFromDay, MonthStart, DaySpan;
    var y := Year(t);
    BoundariesInDays(YEARLY, t);
    MonthStartIs(y, 0);
    MonthStartIs(y + 1, 0);
    YearIsARun(y, Day(s));
    DaySpanHolds(MonthStart(y, 0), MonthStart(y + 1, 0), s);
  }

  lemma WindowIsPeriod(period: Period, t: int)
    requires !TwoDigit(period, t)
    ensures IsPeriodOf(period, t, Boundaries(period, t))
  {
    forall s ensures Within(s, Boundaries(period, t)) <==> SamePeriod(period, s, t) {
      match period
      case DAILY =>
        BoundariesInDays(DAILY, t);
        DaySpanHolds(Day(t), Day(t) + 1, s);
      case MONTHLY => MonthSpanIsPeriod(t, s);
      case YEARLY => YearSpanIsPeriod(t, s);
    }
  }

  /** 1 January of a two-digit year, as Date.UTC reads it, is in another century. */
  lemma TwoDigitYearsStartLate(y: int, m: int, day: int)
    requires 0 <= y <= 99 && 0 <= m < 12 && CivilFromDay(day).year == y
    ensures day < MonthStart(FullYear(y), m)
  {
    hide CivilFromDay, MonthStart;
    MonthStartIs(1900 + y, m);
    DaysBeforeMonthMonotone(1900 + y, 0, m);
    DayFromYearMonotone(y + 1, 1900 + y);
    YearIsARun(y, day);
  }

  lemma TwoDigitWindowsMissTheirAnchor(period: Period, t: int)
    requires TwoDigit(period, t) && 0 <= Year(t)
    ensures !Within(t, Boundaries(period, t))
  {
    var c := CivilFromDay(Day(t));
    var m := if period == YEARLY then 0 else c.month;
    TwoDigitYearsStartLate(c.year, m, Day(t));
    assert Boundaries(period, t).from == MonthStart(FullYear(c.year), m) * MS_PER_DAY;
  }

  lemma YearMinusOneSpillsOver(t: int)
    requires Year(t) == -1
    ensures Within(MonthStart(0, 0) * MS_PER_DAY, Boundaries(YEARLY, t))
    ensures !SamePeriod(YEARLY, MonthStart(0, 0) * MS_PER_DAY, t)
  {
    var s := MonthStart(0, 0) * MS_PER_DAY;
    assert MonthStart(-1, 0) < MonthStart(0, 0) < MonthStart(1900, 0);
    assert Boundaries(YEARLY, t) == Window(MonthStart(-1, 0) * MS_PER_DAY, MonthStart(1900, 0) * MS_PER_DAY - 1);
    MonthStartIs(0, 0);
    DayFromYearStep(0);
    YearIsARun(0, Day(s));
  }

  /** The windows tile the time line exactly where no two-digit year is involved. */
  lemma WindowsTile(period: Period, t: int)
    ensures IsPeriodOf(period, t, Boundaries(period, t)) <==> !TwoDigit(period, t)
  {
    if !TwoDigit(period, t) {
      WindowIsPeriod(period, t);
    } else if 0 <= Year(t) {
      TwoDigitWindowsMissTheirAnchor(period, t);
      assert SamePeriod(period, t, t);
    } else {
      YearMinusOneSpillsOver(t);
    }
  }

  /** Every instant lies in its own window, a window is the same from wherever inside it is asked for, and the next one starts a millisecond after it ends. */
  lemma EachInstantHasOneWindow(period: Period, t: int)
    requires 100 <= Year(t)
    ensures var w := Boundaries(period, t);
      && Within(t, w)
      && (forall s :: Within(s, w) ==> Boundaries(period, s) == w)
      && (forall s :: Within(t, Boundaries(period, s)) && 100 <= Year(s) ==> Boundaries(period, s) == w)
      && Boundaries(period, w.to + 1).from == w.to + 1
  {
    var w := Boundaries(period, t);
    WindowIsPeriod(period, t);
    assert SamePeriod(period, t, t);
    forall s | Within(s, w) ensures Boundaries(period, s) == w {
      SameWindow(period, s, t);
    }
    forall s | Within(t, Boundaries(period, s)) && 100 <= Year(s) ensures Boundaries(period, s) == w {
      WindowIsPeriod(period, s);
      SameWindow(period, s, t);
    }
    NextWindowAbuts(period, t);
  }

  lemma SameWindow(period: Period, s: int, t: int)
    requires SamePeriod(period, s, t)
    ensures Boundaries(period, s) == Boundaries(period, t)
  {
    hide CivilFromDay, DateUTC;
  }

  lemma NextMonthAbuts(t: int)
    requires 100 <= Year(t)
    ensures var to := Boundaries(MONTHLY, t).to; Boundaries(MONTHLY, to + 1).from == to + 1
  {
    hide DayFromYear, DaysBeforeMonth, DaysInMonth, YearFromDay, CivilInYear, MakeDay, DateUTC;
    var c := CivilFromDay(Day(t));
    var d := NextMonth(c);
    BoundariesInDays(MONTHLY, t);
    MonthStartIs(c.year, c.month);
    MonthEndsWhereNextBegins(c);
    MonthBegins(d.year, d.month, MonthStart(c.year, c.month + 1) * MS_PER_DAY);
  }

  lemma NextYearAbuts(t: int)
    requires 100 <= Year(t)
    ensures var to := Boundaries(YEARLY, t).to; Boundaries(YEARLY, to + 1).from == to + 1
  {
    BoundariesInDays(YEARLY, t);
    MonthStartIs(Year(t) + 1, 0);
    MonthBegins(Year(t) + 1, 0, MonthStart(Year(t) + 1, 0) * MS_PER_DAY);
  }

  lemma NextDayAbuts(t: int)
    ensures var to := Boundaries(DAILY, t).to; Boundaries(DAILY, to + 1).from == to + 1
  {
    BoundariesInDays(DAILY, t);
  }

  lemma NextWindowAbuts(period: Period, t: int)
    requires 100 <= Year(t)
    ensures var to := Boundaries(period, t).to; Boundaries(period, to + 1).from == to + 1
  {
    hide Boundaries;
    match period
    case DAILY => NextDayAbuts(t);
    case MONTHLY => NextMonthAbuts(t);
    case YEARLY => NextYearAbuts(t);
  }

  lemma MonthBegins(y: int, m: int, t: int)
    requires 100 <= y && 0 <= m < 12 && t == DayOfDate(y, m, 1) * MS_PER_DAY
    ensures CivilFromDay(Day(t)) == Civil(y, m, 1)
    ensures Boundaries(MONTHLY, t).from == t
    ensures m == 0 ==> Boundaries(YEARLY, t).from == t
  {
    CivilIsUnique(Day(t), Civil(y, m, 1));
    MonthStartIs(y, m);
    BoundariesInDays(MONTHLY, t);
    BoundariesInDays(YEARLY, t);
  }

  /** Where each window begins and ends, with the numbers of the table. */
  lemma WindowsByTheTable(t: int)
    requires 100 <= Year(t)
    ensures var y, leap := Year(t), DayFromYear(Year(t) + 1) - DayFromYear(Year(t)) - 365;
      var (first, next) := MonthRow(Month(t), leap);
      var start := DayFromYear(y) * 86_400_000;
      && Boundaries(MONTHLY, t) == Window(start + first * 86_400_000, start + next * 86_400_000 - 1)
      && Boundaries(YEARLY, t) == Window(start, start + (365 + leap) * 86_400_000 - 1)
  {
    hide Boundaries, DayFromYear, DaysBeforeMonth, Year, Month, MonthRow, CivilFromDay, Day;
    YearlyWindow(t);
    MonthlyWindow(t);
    MonthOfTable(Year(t), Month(t));
    InWindowUnits(Boundaries(MONTHLY, t), DayFromYear(Year(t)), DaysBeforeMonth(Year(t), Month(t)), DaysBeforeMonth(Year(t), Month(t) + 1));
  }

  /** In particular a month's window has its days: thirty has November, April, June and September. */
  lemma MonthLengths(t: int)
    requires 100 <= Year(t)
    ensures var m, w, leap := Month(t), Boundaries(MONTHLY, t), DayFromYear(Year(t) + 1) - DayFromYear(Year(t)) - 365;
      && 0 <= m < 12
      && (m == 10 || m == 3 || m == 5 || m == 8 ==> w.to + 1 - w.from == 30 * 86_400_000)
      && (m == 1 ==> w.to + 1 - w.from == (28 + leap) * 86_400_000)
      && (m in {0, 2, 4, 6, 7, 9, 11} ==> w.to + 1 - w.from == 31 * 86_400_000)
  {
    WindowsByTheTable(t);
    hide Boundaries, DayFromYear, Year, CivilFromDay, Day;
  }

  /** A day's window is the day that holds the instant. */
  lemma DailyWindow(t: int)
    ensures var w := Boundaries(DAILY, t); w.from <= t < w.from + 86_400_000 == w.to + 1 && w.from % 86_400_000 == 0
  {
  }

  lemma InWindowUnits(w: Window, year: int, first: int, next: int)
    requires w.from == (year + first) * MS_PER_DAY && w.to + 1 == (year + next) * MS_PER_DAY
    ensures w == Window(year * 86_400_000 + first * 86_400_000, year * 86_400_000 + next * 86_400_000 - 1)
  {
  }

  lemma MonthlyWindow(t: int)
    requires 100 <= Year(t)
    ensures 0 <= Month(t) < 12
    ensures Boundaries(MONTHLY, t).from == (DayFromYear(Year(t)) + DaysBeforeMonth(Year(t), Month(t))) * MS_PER_DAY
    ensures Boundaries(MONTHLY, t).to + 1 == (DayFromYear(Year(t)) + DaysBeforeMonth(Year(t), Month(t) + 1)) * MS_PER_DAY
  {
    hide Boundaries, MonthStart, DayFromYear, Day, CivilFromDay, DaysBeforeMonth, MakeDay;
    BoundariesInDays(MONTHLY, t);
    MonthStartIs(Year(t), Month(t));
    MonthStep(Year(t), Month(t));
  }

  lemma MonthStep(y: int, m: int)
    requires 0 <= m < 12
    ensures DaysBeforeMonth(y, m + 1) == DaysBeforeMonth(y, m) + DaysInMonth(y, m)
  {
  }

  lemma YearlyWindow(t: int)
    requires 100 <= Year(t)
    ensures Boundaries(YEARLY, t).from == DayFromYear(Year(t)) * MS_PER_DAY
    ensures Boundaries(YEARLY, t).to + 1 == DayFromYear(Year(t) + 1) * MS_PER_DAY
  {
    BoundariesInDays(YEARLY, t);
    MonthStartIs(Year(t), 0);
    MonthStartIs(Year(t) + 1, 0);
    hide Boundaries, MonthStart, DayFromYear, Day, CivilFromDay;
  }

  // ---------------------------------------------------------------- between the milliseconds

  /** The columns hold microseconds; the millisecond an instant falls in. */
  function Milli(u: int): int { u / 1000 }

  /** What `gte: from, lte: to` selects of a column of microseconds. */
  predicate Contains(w: Window, u: int) { w.from * 1000 <= u <= w.to * 1000 }

  lemma ContainsIsWithin(w: Window, u: int)
    ensures Contains(w, u) <==> Within(Milli(u), w) && !(Milli(u) == w.to && u % 1000 != 0)
  {
  }

  /**
   An instant lies in the window of its millisecond, and in no other, unless it
   lies inside the window's last millisecond; then it lies in none.
   */
  lemma WhenAnInstantIsCovered(period: Period, u: int, s: int)
    requires 100 <= Year(Milli(u)) && 100 <= Year(s)
    ensures var w := Boundaries(period, Milli(u));
      && (Contains(w, u) <==> !(Milli(u) == w.to && u % 1000 != 0))
      && (Contains(Boundaries(period, s), u) ==> Boundaries(period, s) == w)
  {
    hide Year, Boundaries, Milli, Contains;
    EachInstantHasOneWindow(period, Milli(u));
    ContainsIsWithin(Boundaries(period, Milli(u)), u);
    ContainsIsWithin(Boundaries(period, s), u);
  }

  // ---------------------------------------------------------------- the ledger

  datatype Stream = BUZZPAY | PIXIE | MICAMP | EAZEPAY_APP | HIGHSALE | AUREAN_AI | AUREAN_RECRUITMENT

  datatype Entry = Entry(effectiveAt: int, stream: Stream, amount: int)

  datatype Totals = Totals(revenue: int, buzzpay: int, pixie: int, micamp: int)

  function Zero(): Totals { Totals(0, 0, 0, 0) }

  function Plus(a: Totals, b: Totals): Totals {
    Totals(a.revenue + b.revenue, a.buzzpay + b.buzzpay, a.pixie + b.pixie, a.micamp + b.micamp)
  }

  function Amount(e: Entry): Totals {
    Totals(e.amount,
           if e.stream == BUZZPAY then e.amount else 0,
           if e.stream == PIXIE then e.amount else 0,
           if e.stream == MICAMP then e.amount else 0)
  }

  /** The four sums over the entries at the chosen instants. */
  function SumWhere(ledger: seq<Entry>, chosen: int -> bool): Totals {
    if ledger == [] then Zero() else Plus(Share(ledger[0], chosen), SumWhere(ledger[1..], chosen))
  }

  /** What one entry adds to them. */
  function Share(e: Entry, chosen: int -> bool): Totals {
    if chosen(e.effectiveAt) then Amount(e) else Zero()
  }

  function InWindow(w: Window): int -> bool { u => Contains(w, u) }

  /** The four aggregates over a window. */
  function SumWithin(ledger: seq<Entry>, w: Window): Totals { SumWhere(ledger, InWindow(w)) }

  function RollupOf(ledger: seq<Entry>, period: Period, anchor: int): Totals {
    SumWithin(ledger, Boundaries(period, anchor))
  }

  lemma PlusSwaps(p: Totals, q: Totals, r: Totals, s: Totals)
    ensures Plus(Plus(p, q), Plus(r, s)) == Plus(Plus(p, r), Plus(q, s))
  {
  }

  lemma PlusLaws(a: Totals, b: Totals, c: Totals)
    ensures Plus(Zero(), a) == a == Plus(a, Zero())
    ensures Plus(a, b) == Plus(b, a) && Plus(Plus(a, b), c) == Plus(a, Plus(b, c))
    ensures Plus(a, c) == Plus(b, c) ==> a == b
  {
  }

  /** Sums over disjoint choices of instants add up. */
  lemma {:induction false} SumSplits(ledger: seq<Entry>, all: int -> bool, some: int -> bool, rest: int -> bool)
    requires forall u :: all(u) <==> some(u) || rest(u)
    requires forall u :: !(some(u) && rest(u))
    ensures SumWhere(ledger, all) == Plus(SumWhere(ledger, some), SumWhere(ledger, rest))
  {
    hide Plus, Share, Zero;
    if ledger == [] {
      PlusLaws(Zero(), Zero(), Zero());
    } else {
      SumSplits(ledger[1..], all, some, rest);
      ShareSplits(ledger[0], all, some, rest);
      PlusSwaps(Share(ledger[0], some), Share(ledger[0], rest), SumWhere(ledger[1..], some), SumWhere(ledger[1..], rest));
    }
  }

  lemma ShareSplits(e: Entry, all: int -> bool, some: int -> bool, rest: int -> bool)
    requires all(e.effectiveAt) <==> some(e.effectiveAt) || rest(e.effectiveAt)
    requires !(some(e.effectiveAt) && rest(e.effectiveAt))
    ensures Share(e, all) == Plus(Share(e, some), Share(e, rest))
  {
  }

  lemma {:induction false} SumNothing(ledger: seq<Entry>, none: int -> bool)
    requires forall u :: !none(u)
    ensures SumWhere(ledger, none) == Zero()
  {
    if ledger != [] {
      SumNothing(ledger[1..], none);
    }
  }

  lemma NotChosen(ledger: seq<Entry>, chosen: int -> bool)
    requires ledger != [] && !chosen(ledger[0].effectiveAt)
    ensures SumWhere(ledger, chosen) == SumWhere(ledger[1..], chosen)
  {
    var rest := SumWhere(ledger[1..], chosen);
    assert SumWhere(ledger, chosen) == Plus(Share(ledger[0], chosen), rest);
    assert Share(ledger[0], chosen) == Zero();
    PlusLaws(rest, rest, rest);
  }

  lemma SumOne(e: Entry, chosen: int -> bool)
    ensures SumWhere([e], chosen) == Share(e, chosen)
  {
    assert SumWhere([e][1..], chosen) == Zero();
  }

  // ---------------------------------------------------------------- days, months and years of the ledger

  /** The instants of the days from a up to, and not including, b. */
  function InDays(a: int, b: int): int -> bool { u => a <= Day(Milli(u)) < b }

  predicate InLastMillisecond(u: int) { TimeWithinDay(Milli(u)) == MS_PER_DAY - 1 && u % 1000 != 0 }

  /** The instants of a day that no window ending with it contains. */
  function LateOn(day: int): int -> bool { u => Day(Milli(u)) == day && InLastMillisecond(u) }

  lemma DaySpanContains(a: int, b: int, u: int)
    requires a < b
    ensures Contains(DaySpan(a, b), u) <==> InDays(a, b)(u) && !LateOn(b - 1)(u)
  {
    ContainsIsWithin(DaySpan(a, b), u);
    DaySpanHolds(a, b, Milli(u));
    var t := Milli(u);
    assert t == Day(t) * MS_PER_DAY + TimeWithinDay(t);
    hide Contains, Within;
  }

  /** A window of whole days holds what was booked on them, but for the last millisecond of the last. */
  lemma WindowIsDays(ledger: seq<Entry>, a: int, b: int)
    requires a < b
    ensures Plus(SumWithin(ledger, DaySpan(a, b)), SumWhere(ledger, LateOn(b - 1))) == SumWhere(ledger, InDays(a, b))
  {
    forall u ensures InDays(a, b)(u) <==> InWindow(DaySpan(a, b))(u) || LateOn(b - 1)(u)
      ensures !(InWindow(DaySpan(a, b))(u) && LateOn(b - 1)(u))
    {
      DaySpanContains(a, b, u);
    }
    SumSplits(ledger, InDays(a, b), InWindow(DaySpan(a, b)), LateOn(b - 1));
  }

  lemma DaysSplit(ledger: seq<Entry>, a: int, b: int, c: int)
    requires a <= b <= c
    ensures SumWhere(ledger, InDays(a, c)) == Plus(SumWhere(ledger, InDays(a, b)), SumWhere(ledger, InDays(b, c)))
    ensures SumWhere(ledger, InDays(a, a)) == Zero()
  {
    SumSplits(ledger, InDays(a, c), InDays(a, b), InDays(b, c));
    SumNothing(ledger, InDays(a, a));
  }

  /** The DAILY rollups of n consecutive days, added up, and what was booked in the last milliseconds of n days. */
  function SumOfDays(ledger: seq<Entry>, first: int, n: nat): Totals {
    if n == 0 then Zero()
    else Plus(SumOfDays(ledger, first, n - 1), RollupOf(ledger, DAILY, (first + n - 1) * MS_PER_DAY))
  }

  function LateOver(ledger: seq<Entry>, first: int, n: nat): Totals {
    if n == 0 then Zero() else Plus(LateOver(ledger, first, n - 1), SumWhere(ledger, LateOn(first + n - 1)))
  }

  lemma {:induction false} DaysAddUp(ledger: seq<Entry>, first: int, n: nat)
    ensures Plus(SumOfDays(ledger, first, n), LateOver(ledger, first, n)) == SumWhere(ledger, InDays(first, first + n))
  {
    hide SumWhere, SumWithin, DaySpan, Boundaries, Plus, Zero;
    PlusLaws(Zero(), Zero(), Zero());
    DaysSplit(ledger, first, first, first);
    if n > 0 {
      var last := first + n - 1;
      DaysAddUp(ledger, first, n - 1);
      BoundariesInDays(DAILY, last * MS_PER_DAY);
      DayStarts(last);
      WindowIsDays(ledger, last, last + 1);
      DaysSplit(ledger, first, last, last + 1);
      PlusSwaps(SumOfDays(ledger, first, n - 1), RollupOf(ledger, DAILY, last * MS_PER_DAY),
                LateOver(ledger, first, n - 1), SumWhere(ledger, LateOn(last)));
    }
  }

  lemma DayStarts(day: int)
    ensures Day(day * MS_PER_DAY) == day
  {
  }

  /** A period's rollup is that of its days and the late entries of all of them but the last. */
  lemma RollupIsDays(ledger: seq<Entry>, first: int, n: nat)
    requires n >= 1
    ensures Plus(SumOfDays(ledger, first, n), LateOver(ledger, first, n - 1)) == SumWithin(ledger, DaySpan(first, first + n))
  {
    hide SumWhere, SumWithin, DaySpan, SumOfDays, Plus, Zero;
    DaysAddUp(ledger, first, n);
    WindowIsDays(ledger, first, first + n);
    var days, late, last := SumOfDays(ledger, first, n), LateOver(ledger, first, n - 1), SumWhere(ledger, LateOn(first + n - 1));
    PlusLaws(days, late, last);
    PlusLaws(Plus(days, late), SumWithin(ledger, DaySpan(first, first + n)), last);
  }

  /**
   The DAILY rollups of a month, and the entries in the last millisecond of its
   days but the last, add up to its MONTHLY rollup, total by total; without the
   latter they do exactly when those amount to nothing.
   */
  lemma DaysOfMonthAddUp(ledger: seq<Entry>, t: int)
    requires 100 <= Year(t)
    ensures var first, n := MonthStart(Year(t), Month(t)), DaysInMonth(Year(t), Month(t));
      && n >= 1
      && Plus(SumOfDays(ledger, first, n), LateOver(ledger, first, n - 1)) == RollupOf(ledger, MONTHLY, t)
      && (SumOfDays(ledger, first, n) == RollupOf(ledger, MONTHLY, t) <==> LateOver(ledger, first, n - 1) == Zero())
  {
    hide SumWithin, DaySpan, Boundaries, MonthStart, CivilFromDay, SumOfDays, LateOver, DayFromYear, DaysBeforeMonth;
    var c := CivilFromDay(Day(t));
    MonthStartIs(c.year, c.month);
    var first, n := MonthStart(c.year, c.month), DaysInMonth(c.year, c.month);
    RollupIsDays(ledger, first, n);
    BoundariesInDays(MONTHLY, t);
  }

  /** The MONTHLY rollups of the first n months of a year, each asked for at the start of its month. */
  function SumOfMonths(ledger: seq<Entry>, y: int, n: nat): Totals
    requires n <= 12
  {
    if n == 0 then Zero()
    else Plus(SumOfMonths(ledger, y, n - 1), RollupOf(ledger, MONTHLY, MonthStart(y, n - 1) * MS_PER_DAY))
  }

  /** What was booked in the last millisecond of the first n months. */
  function LateInMonths(ledger: seq<Entry>, y: int, n: nat): Totals
    requires n <= 12
  {
    if n == 0 then Zero() else Plus(LateInMonths(ledger, y, n - 1), SumWhere(ledger, LateOn(MonthStart(y, n) - 1)))
  }

  lemma MonthIsDays(ledger: seq<Entry>, y: int, m: int)
    requires 100 <= y && 0 <= m < 12
    ensures MonthStart(y, m) < MonthStart(y, m + 1)
    ensures Plus(RollupOf(ledger, MONTHLY, MonthStart(y, m) * MS_PER_DAY), SumWhere(ledger, LateOn(MonthStart(y, m + 1) - 1)))
      == SumWhere(ledger, InDays(MonthStart(y, m), MonthStart(y, m + 1)))
  {
    hide SumWhere, SumWithin, DaySpan, Boundaries, MonthStart, CivilFromDay, Plus, DayFromYear, DaysBeforeMonth;
    MonthStartIs(y, m);
    MonthBegins(y, m, MonthStart(y, m) * MS_PER_DAY);
    BoundariesInDays(MONTHLY, MonthStart(y, m) * MS_PER_DAY);
    WindowIsDays(ledger, MonthStart(y, m), MonthStart(y, m + 1));
  }

  lemma {:induction false} MonthsAddUp(ledger: seq<Entry>, y: int, n: nat)
    requires 100 <= y && n <= 12
    ensures MonthStart(y, 0) <= MonthStart(y, n)
    ensures Plus(SumOfMonths(ledger, y, n), LateInMonths(ledger, y, n))
      == SumWhere(ledger, InDays(MonthStart(y, 0), MonthStart(y, n)))
  {
    hide SumWhere, RollupOf, MonthStart, Plus, Zero;
    PlusLaws(Zero(), Zero(), Zero());
    DaysSplit(ledger, MonthStart(y, 0), MonthStart(y, 0), MonthStart(y, 0));
    if n > 0 {
      MonthsAddUp(ledger, y, n - 1);
      MonthIsDays(ledger, y, n - 1);
      DaysSplit(ledger, MonthStart(y, 0), MonthStart(y, n - 1), MonthStart(y, n));
      PlusSwaps(SumOfMonths(ledger, y, n - 1), RollupOf(ledger, MONTHLY, MonthStart(y, n - 1) * MS_PER_DAY),
                LateInMonths(ledger, y, n - 1), SumWhere(ledger, LateOn(MonthStart(y, n) - 1)));
    }
  }

  /**
   The MONTHLY rollups of a year, and the entries in the last millisecond of
   its months but December, add up to its YEARLY rollup; without the latter
   they do exactly when those amount to nothing.
   */
  lemma MonthsOfYearAddUp(ledger: seq<Entry>, t: int)
    requires 100 <= Year(t)
    ensures var y := Year(t);
      && Plus(SumOfMonths(ledger, y, 12), LateInMonths(ledger, y, 11)) == RollupOf(ledger, YEARLY, t)
      && (SumOfMonths(ledger, y, 12) == RollupOf(ledger, YEARLY, t) <==> LateInMonths(ledger, y, 11) == Zero())
  {
    hide SumWhere, SumWithin, DaySpan, Boundaries, MonthStart, CivilFromDay, SumOfMonths, Day;
    var y := Year(t);
    YearInDays(ledger, t);
    MonthsAddUp(ledger, y, 12);
    var months, late, last := SumOfMonths(ledger, y, 12), LateInMonths(ledger, y, 11), SumWhere(ledger, LateOn(MonthStart(y, 12) - 1));
    assert LateInMonths(ledger, y, 12) == Plus(late, last);
    PlusLaws(months, late, last);
    PlusLaws(Plus(months, late), RollupOf(ledger, YEARLY, t), last);
  }

  lemma YearInDays(ledger: seq<Entry>, t: int)
    requires 100 <= Year(t)
    ensures var y := Year(t);
      Plus(RollupOf(ledger, YEARLY, t), SumWhere(ledger, LateOn(MonthStart(y, 12) - 1)))
        == SumWhere(ledger, InDays(MonthStart(y, 0), MonthStart(y, 12)))
  {
    hide SumWhere, SumWithin, DaySpan, Boundaries, MonthStart, CivilFromDay, Plus, Day;
    var y := Year(t);
    BoundariesInDays(YEARLY, t);
    MonthStartIs(y, 0);
    MonthStartIs(y + 1, 0);
    DayFromYearStep(y);
    WindowIsDays(ledger, MonthStart(y, 0), MonthStart(y, 12));
  }

  /** And so do the DAILY rollups of a year, with the late entries of its days but the last. */
  lemma DaysOfYearAddUp(ledger: seq<Entry>, t: int)
    requires 100 <= Year(t)
    ensures var first, n := MonthStart(Year(t), 0), DaysInYear(Year(t));
      && Plus(SumOfDays(ledger, first, n), LateOver(ledger, first, n - 1)) == RollupOf(ledger, YEARLY, t)
      && (SumOfDays(ledger, first, n) == RollupOf(ledger, YEARLY, t) <==> LateOver(ledger, first, n - 1) == Zero())
  {
    hide SumWithin, DaySpan, Boundaries, MonthStart, CivilFromDay, SumOfDays, LateOver, Day;
    var y := Year(t);
    BoundariesInDays(YEARLY, t);
    MonthStartIs(y, 0);
    MonthStartIs(y + 1, 0);
    DayFromYearStep(y);
    RollupIsDays(ledger, MonthStart(y, 0), DaysInYear(y));
  }

  /** Entries booked at whole milliseconds, as every entry is that a JavaScript Date dates. */
  predicate WholeMillis(ledger: seq<Entry>) {
    ledger == [] || (ledger[0].effectiveAt % 1000 == 0 && WholeMillis(ledger[1..]))
  }

  lemma WholeIsNotLate(u: int, day: int)
    requires u % 1000 == 0
    ensures !LateOn(day)(u)
  {
    hide Day, TimeWithinDay, Milli;
  }

  lemma {:induction false} NothingIsLate(ledger: seq<Entry>, day: int)
    requires WholeMillis(ledger)
    ensures SumWhere(ledger, LateOn(day)) == Zero()
  {
    hide LateOn;
    if ledger != [] {
      WholeIsNotLate(ledger[0].effectiveAt, day);
      NothingIsLate(ledger[1..], day);
      NotChosen(ledger, LateOn(day));
    }
  }

  lemma {:induction false} NoLateDays(ledger: seq<Entry>, first: int, n: nat)
    requires WholeMillis(ledger)
    ensures LateOver(ledger, first, n) == Zero()
  {
    if n > 0 {
      NoLateDays(ledger, first, n - 1);
      NothingIsLate(ledger, first + n - 1);
    }
  }

  lemma {:induction false} NoLateMonths(ledger: seq<Entry>, y: int, n: nat)
    requires WholeMillis(ledger) && n <= 12
    ensures LateInMonths(ledger, y, n) == Zero()
  {
    hide MonthStart;
    if n > 0 {
      NoLateMonths(ledger, y, n - 1);
      NothingIsLate(ledger, MonthStart(y, n) - 1);
    }
  }

  /** For such a ledger the three periods agree: days add up to months and years, months to years. */
  lemma WholeMillisAddUp(ledger: seq<Entry>, t: int)
    requires 100 <= Year(t) && WholeMillis(ledger)
    ensures var y, m := Year(t), Month(t);
      && SumOfDays(ledger, MonthStart(y, m), DaysInMonth(y, m)) == RollupOf(ledger, MONTHLY, t)
      && SumOfMonths(ledger, y, 12) == RollupOf(ledger, YEARLY, t)
      && SumOfDays(ledger, MonthStart(y, 0), DaysInYear(y)) == RollupOf(ledger, YEARLY, t)
  {
    hide RollupOf, SumOfDays, SumOfMonths, LateOver, LateInMonths, MonthStart, Year, Month;
    var y, m := Year(t), Month(t);
    DaysOfMonthAddUp(ledger, t);
    MonthsOfYearAddUp(ledger, t);
    DaysOfYearAddUp(ledger, t);
    NoLateDays(ledger, MonthStart(y, m), DaysInMonth(y, m) - 1);
    NoLateDays(ledger, MonthStart(y, 0), DaysInYear(y) - 1);
    NoLateMonths(ledger, y, 11);
  }

  /** An instance at which they do not, in any month: an entry inside the last millisecond of its first day. */
  lemma LateEntriesAreMissed(t: int, stream: Stream, amount: int)
    requires 100 <= Year(t) && amount != 0
    ensures var first, n := MonthStart(Year(t), Month(t)), DaysInMonth(Year(t), Month(t));
      var ledger := [Entry((first * MS_PER_DAY + MS_PER_DAY - 1) * 1000 + 1, stream, amount)];
      SumOfDays(ledger, first, n) != RollupOf(ledger, MONTHLY, t)
  {
    hide RollupOf, SumOfDays, MonthStart, Year, Month;
    var first, n := MonthStart(Year(t), Month(t)), DaysInMonth(Year(t), Month(t));
    var e := Entry((first * MS_PER_DAY + MS_PER_DAY - 1) * 1000 + 1, stream, amount);
    DaysOfMonthAddUp([e], t);
    LateAtTheFirst(e, first, n - 1);
  }

  lemma LateInstant(first: int, day: int)
    ensures LateOn(day)((first * MS_PER_DAY + MS_PER_DAY - 1) * 1000 + 1) <==> day == first
  {
    var t := first * MS_PER_DAY + MS_PER_DAY - 1;
    InMilli(t);
    EndOfDay(first);
    hide Day, TimeWithinDay, Milli;
  }

  lemma InMilli(t: int)
    ensures Milli(t * 1000 + 1) == t && (t * 1000 + 1) % 1000 != 0
  {
  }

  lemma EndOfDay(day: int)
    ensures var t := day * MS_PER_DAY + MS_PER_DAY - 1;
      Day(t) == day && TimeWithinDay(t) == MS_PER_DAY - 1
  {
  }

  lemma LateOnTheFirst(e: Entry, first: int, day: int)
    requires e.effectiveAt == (first * MS_PER_DAY + MS_PER_DAY - 1) * 1000 + 1
    ensures SumWhere([e], LateOn(day)) == if day == first then Amount(e) else Zero()
  {
    LateInstant(first, day);
    SumOne(e, LateOn(day));
  }

  lemma {:induction false} LateAtTheFirst(e: Entry, first: int, n: nat)
    requires e.effectiveAt == (first * MS_PER_DAY + MS_PER_DAY - 1) * 1000 + 1 && n >= 1
    ensures LateOver([e], first, n) == Amount(e)
  {
    var day := first + n - 1;
    LateOnTheFirst(e, first, day);
    hide LateOn, SumWhere;
    if n > 1 {
      LateAtTheFirst(e, first, n - 1);
    } else {
      assert LateOver([e], first, 0) == Zero();
    }
  }

  /** The aggregates' WHERE clause: the entries of a window in some of the streams, in order. */
  function Matching(ledger: seq<Entry>, w: Window, streams: set<Stream>): seq<Entry> {
    if ledger == [] then []
    else if Matches(ledger[0], w, streams) then [ledger[0]] + Matching(ledger[1..], w, streams)
    else Matching(ledger[1..], w, streams)
  }

  predicate Matches(e: Entry, w: Window, streams: set<Stream>) { Contains(w, e.effectiveAt) && e.stream in streams }

  function TotalAmount(entries: seq<Entry>): int {
    if entries == [] then 0 else entries[0].amount + TotalAmount(entries[1..])
  }

  const BROKEN_DOWN: set<Stream> := {BUZZPAY, PIXIE, MICAMP}

  const OTHERS: set<Stream> := {EAZEPAY_APP, HIGHSALE, AUREAN_AI, AUREAN_RECRUITMENT}

  function StreamTotal(ledger: seq<Entry>, w: Window, streams: set<Stream>): int {
    TotalAmount(Matching(ledger, w, streams))
  }

  lemma StreamTotalHead(ledger: seq<Entry>, w: Window, streams: set<Stream>)
    ensures ledger == [] ==> StreamTotal(ledger, w, streams) == 0
    ensures ledger != [] ==>
      StreamTotal(ledger, w, streams) ==
        (if Matches(ledger[0], w, streams) then ledger[0].amount else 0) + StreamTotal(ledger[1..], w, streams)
  {
    if ledger != [] && Matches(ledger[0], w, streams) {
      assert ([ledger[0]] + Matching(ledger[1..], w, streams))[1..] == Matching(ledger[1..], w, streams);
    }
  }

  lemma SumWithinHead(ledger: seq<Entry>, w: Window)
    ensures SumWithin(ledger, w) ==
      if ledger == [] then Zero()
      else Plus(if Contains(w, ledger[0].effectiveAt) then Amount(ledger[0]) else Zero(), SumWithin(ledger[1..], w))
  {
  }

  /**
   The four totals are the sums over all entries of the window and over those
   of one stream each; the three breakdowns account for the total exactly when
   the entries of the other streams cancel out.
   */
  lemma {:induction false} TotalsAreTheLedgers(ledger: seq<Entry>, w: Window)
    ensures var s := SumWithin(ledger, w);
      && s.revenue == StreamTotal(ledger, w, BROKEN_DOWN + OTHERS)
      && s.buzzpay == StreamTotal(ledger, w, {BUZZPAY})
      && s.pixie == StreamTotal(ledger, w, {PIXIE})
      && s.micamp == StreamTotal(ledger, w, {MICAMP})
      && s.revenue == s.buzzpay + s.pixie + s.micamp + StreamTotal(ledger, w, OTHERS)
  {
    StreamTotalHead(ledger, w, BROKEN_DOWN + OTHERS);
    StreamTotalHead(ledger, w, OTHERS);
    StreamTotalHead(ledger, w, {BUZZPAY});
    StreamTotalHead(ledger, w, {PIXIE});
    StreamTotalHead(ledger, w, {MICAMP});
    SumWithinHead(ledger, w);
    hide StreamTotal, Contains, SumWithin;
    if ledger != [] {
      TotalsAreTheLedgers(ledger[1..], w);
    }
  }

  /** An instance: one entry of another stream, and the breakdowns are short of the total. */
  lemma OtherStreamsAreMissed(e: Entry, w: Window)
    requires Contains(w, e.effectiveAt) && e.stream in OTHERS && e.amount != 0
    ensures var s := SumWithin([e], w); s.revenue != s.buzzpay + s.pixie + s.micamp
  {
    SumWithinHead([e], w);
    SumWithinHead([], w);
  }

  // ---------------------------------------------------------------- the stored rows

  datatype Row = Row(periodEnd: int, totals: Totals)

  /** The upsert on (periodStart, period): a row that exists keeps its end. */
  function Upserted(rows: map<(int, Period), Row>, ledger: seq<Entry>, period: Period, anchor: int)
    : map<(int, Period), Row>
  {
    var w := Boundaries(period, anchor);
    var end := if (w.from, period) in rows then rows[(w.from, period)].periodEnd else w.to;
    rows[(w.from, period) := Row(end, RollupOf(ledger, period, anchor))]
  }

  class AggregationStore {
    var rows: map<(int, Period), Row>

    constructor ()
      ensures rows == map[]
    {
      rows := map[];
    }

    /** One aggregation job. */
    method Run(ledger: seq<Entry>, period: Period, anchor: int)
      modifies this
      ensures rows == Upserted(old(rows), ledger, period, anchor)
    {
      var w := Boundaries(period, anchor);
      var totals := SumWithin(ledger, w);
      if (w.from, period) in rows {
        rows := rows[(w.from, period) := rows[(w.from, period)].(totals := totals)];
      } else {
        rows := rows[(w.from, period) := Row(w.to, totals)];
      }
    }
  }

  /** What a job stores, whatever was stored: the sums of its window, an end only where there was none, and no other row. */
  lemma WhatAJobStores(
    rows: map<(int, Period), Row>, ledger: seq<Entry>, period: Period, anchor: int, other: (int, Period))
    ensures var w := Boundaries(period, anchor);
      var after := Upserted(rows, ledger, period, anchor);
      && after.Keys == rows.Keys + {(w.from, period)}
      && after[(w.from, period)].totals == SumWithin(ledger, w)
      && after[(w.from, period)].periodEnd == (if (w.from, period) in rows then rows[(w.from, period)].periodEnd else w.to)
      && (other in rows && other != (w.from, period) ==> after[other] == rows[other])
  {
    hide Boundaries, SumWithin;
  }

  /** Every stored row's key and end are those of one window. */
  ghost predicate RowsAreWindows(rows: map<(int, Period), Row>) {
    forall from, period :: (from, period) in rows ==>
      100 <= Year(from) && Boundaries(period, from) == Window(from, rows[(from, period)].periodEnd)
  }

  /** A job refreshes the one row of its window, whichever instant of the window it was anchored at, and leaves every other row alone. */
  lemma JobsRefreshOneWindow(rows: map<(int, Period), Row>, ledger: seq<Entry>, period: Period, anchor: int, again: int)
    requires 100 <= Year(anchor) && RowsAreWindows(rows)
    ensures var w := Boundaries(period, anchor);
      var after := Upserted(rows, ledger, period, anchor);
      && RowsAreWindows(after)
      && after == rows[(w.from, period) := Row(w.to, SumWithin(ledger, w))]
      && (Within(again, w) ==> Upserted(after, ledger, period, again) == after)
  {
    hide Boundaries, SumWithin, CivilFromDay, Day;
    var w := Boundaries(period, anchor);
    EachInstantHasOneWindow(period, anchor);
    WindowIsPeriod(period, anchor);
    assert Within(w.from, w);
    YearInWindow(period, anchor, w.from);
    if Within(again, w) {
      assert Boundaries(period, again) == w;
    }
  }

  lemma YearInWindow(period: Period, s: int, t: int)
    requires SamePeriod(period, s, t)
    ensures Year(s) == Year(t)
  {
  }
}
