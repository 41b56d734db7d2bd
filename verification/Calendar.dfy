/**
 The proleptic Gregorian calendar of section 21.4.1 of ECMA-262, over
 milliseconds since 1970-01-01T00:00:00Z.  Months are numbered 0..11 and
 weekdays 0 (Sunday)..6, as the Date methods number them.  Dafny's `/` and `%`
 floor for a positive divisor, which is what the standard's `floor` and
 `modulo` do, so instants before 1970 need no special case.
 */
module Calendar {

  const MS_PER_MINUTE := 60_000
  const MS_PER_HOUR := 3_600_000
  const MS_PER_DAY := 86_400_000

  datatype Civil = Civil(year: int, month: int, date: int)

  // ---------------------------------------------------------------- days

  function Day(t: int): int { t / MS_PER_DAY }

  function TimeWithinDay(t: int): int { t % MS_PER_DAY }

  function WeekDay(day: int): int { (day + 4) % 7 }

  predicate Divides(n: int, y: int)
    requires n > 0
  {
    y % n == 0
  }

  predicate IsLeap(y: int) { Divides(4, y) && (!Divides(100, y) || Divides(400, y)) }

  function DaysInYear(y: int): int { if IsLeap(y) then 366 else 365 }

  /** The fourth, hundredth and four-hundredth years between 1970 and year y, counted back for earlier years. */
  function Fourths(y: int): int { (y - 1969) / 4 }

  function Hundredths(y: int): int { (y - 1901) / 100 }

  function FourHundredths(y: int): int { (y - 1601) / 400 }

  /** DayFromYear(y): the day number of 1 January of year y. */
  function DayFromYear(y: int): int {
    365 * (y - 1970) + Fourths(y) - Hundredths(y) + FourHundredths(y)
  }

  function DaysInMonth(y: int, m: int): int {
    if m == 1 then (if IsLeap(y) then 29 else 28)
    else if m == 3 || m == 5 || m == 8 || m == 10 then 30
    else 31
  }

  /** The days of year y that precede month m; month 12 is the whole year. */
  function DaysBeforeMonth(y: int, m: int): int
    requires 0 <= m <= 12
  {
    if m == 0 then 0 else DaysBeforeMonth(y, m - 1) + DaysInMonth(y, m - 1)
  }

  predicate ValidCivil(c: Civil) {
    0 <= c.month < 12 && 1 <= c.date <= DaysInMonth(c.year, c.month)
  }

  function DayOfDate(y: int, m: int, d: int): int
    requires 0 <= m < 12
  {
    DayFromYear(y) + DaysBeforeMonth(y, m) + d - 1
  }

  /** MakeDay: months outside 0..11 carry into the year, dates outside the month carry into the day. */
  function MakeDay(y: int, m: int, d: int): int {
    DayOfDate(y + m / 12, m % 12, d)
  }

  // ---------------------------------------------------------------- years

  lemma DayFromYearStep(y: int)
    ensures DayFromYear(y + 1) == DayFromYear(y) + DaysInYear(y)
  {
    FourthYear(y);
    HundredthYear(y);
    FourHundredthYear(y);
    LeapsAreFourths(y);
    hide Fourths, Hundredths, FourHundredths, Divides;
  }

  lemma LeapsAreFourths(y: int)
    ensures Divides(400, y) ==> Divides(100, y)
    ensures Divides(100, y) ==> Divides(4, y)
  {
  }

  lemma FourthYear(y: int)
    ensures Fourths(y + 1) == Fourths(y) + if Divides(4, y) then 1 else 0
  {
  }

  lemma HundredthYear(y: int)
    ensures Hundredths(y + 1) == Hundredths(y) + if Divides(100, y) then 1 else 0
  {
  }

  lemma FourHundredthYear(y: int)
    ensures FourHundredths(y + 1) == FourHundredths(y) + if Divides(400, y) then 1 else 0
  {
  }

  lemma {:induction false} DayFromYearMonotone(y: int, z: int)
    requires y <= z
    ensures DayFromYear(y) + 365 * (z - y) <= DayFromYear(z)
    decreases z - y
  {
    if y < z {
      DayFromYearMonotone(y, z - 1);
      DayFromYearStep(z - 1);
    }
  }

  /** The average Gregorian year brings us within one year of the answer. */
  function YearEstimate(day: int): int { 1970 + 400 * day / 146_097 }

  lemma YearEstimateIsClose(day: int)
    ensures DayFromYear(YearEstimate(day) - 1) <= day < DayFromYear(YearEstimate(day) + 2)
  {
    var x := YearEstimate(day) - 1970;
    assert 146_097 * x <= 400 * day < 146_097 * (x + 1);
    var y := x + 1969;
    assert 400 * DayFromYear(y) <= 146_097 * (x - 1) + 593;
    var z := x + 1972;
    assert 400 * DayFromYear(z) >= 146_097 * (x + 2) - 507;
  }

  /** YearFromTime, on day numbers. */
  function YearFromDay(day: int): (y: int)
    ensures DayFromYear(y) <= day < DayFromYear(y + 1)
  {
    YearEstimateIsClose(day);
    var e := YearEstimate(day);
    if day < DayFromYear(e) then e - 1 else if DayFromYear(e + 1) <= day then e + 1 else e
  }

  lemma YearFromDayUnique(day: int, y: int)
    requires DayFromYear(y) <= day < DayFromYear(y + 1)
    ensures YearFromDay(day) == y
  {
    hide DayFromYear, YearEstimate;
    var z := YearFromDay(day);
    if z < y {
      DayFromYearMonotone(z + 1, y);
    } else if y < z {
      DayFromYearMonotone(y + 1, z);
    }
  }

  lemma YearFromDayMonotone(a: int, b: int)
    requires a <= b
    ensures YearFromDay(a) <= YearFromDay(b)
  {
    if YearFromDay(b) < YearFromDay(a) {
      DayFromYearMonotone(YearFromDay(b) + 1, YearFromDay(a));
    }
  }

  // ---------------------------------------------------------------- months

  lemma YearIsTwelveMonths(y: int)
    ensures DaysBeforeMonth(y, 12) == DaysInYear(y)
  {
    var feb := DaysInMonth(y, 1);
    assert DaysBeforeMonth(y, 1) == 31;
    assert DaysBeforeMonth(y, 2) == 31 + feb;
    assert DaysBeforeMonth(y, 4) == 92 + feb;
    assert DaysBeforeMonth(y, 6) == 153 + feb;
    assert DaysBeforeMonth(y, 8) == 215 + feb;
    assert DaysBeforeMonth(y, 10) == 276 + feb;
    assert DaysBeforeMonth(y, 12) == 337 + feb;
  }

  /** The Gregorian rule, in the lengths of the years: every fourth has 366 days, but of the hundredths only every fourth. */
  lemma YearLengths(y: int)
    ensures DayFromYear(y + 1) - DayFromYear(y) == if y % 4 == 0 && (y % 100 != 0 || y % 400 == 0) then 366 else 365
  {
    DayFromYearStep(y);
  }

  /** The table behind MonthFromTime, with its numbers: the days of a year that precede each month. */
  lemma MonthTable(y: int)
    ensures var leap := DayFromYear(y + 1) - DayFromYear(y) - 365;
      && DaysBeforeMonth(y, 0) == 0 && DaysBeforeMonth(y, 1) == 31
      && DaysBeforeMonth(y, 2) == 59 + leap && DaysBeforeMonth(y, 3) == 90 + leap
      && DaysBeforeMonth(y, 4) == 120 + leap && DaysBeforeMonth(y, 5) == 151 + leap
      && DaysBeforeMonth(y, 6) == 181 + leap && DaysBeforeMonth(y, 7) == 212 + leap
      && DaysBeforeMonth(y, 8) == 243 + leap && DaysBeforeMonth(y, 9) == 273 + leap
      && DaysBeforeMonth(y, 10) == 304 + leap && DaysBeforeMonth(y, 11) == 334 + leap
      && DaysBeforeMonth(y, 12) == 365 + leap
  {
    DayFromYearStep(y);
    YearIsTwelveMonths(y);
    hide DayFromYear, IsLeap;
  }

  lemma {:induction false} DaysBeforeMonthMonotone(y: int, m: int, n: int)
    requires 0 <= m <= n <= 12
    ensures DaysBeforeMonth(y, m) + 28 * (n - m) <= DaysBeforeMonth(y, n)
    decreases n - m
  {
    if m < n {
      DaysBeforeMonthMonotone(y, m, n - 1);
    }
  }

  /** The last month, from m down, that starts no later than the given day of the year. */
  function MonthFrom(y: int, m: int, dayInYear: int): (r: int)
    requires 0 <= m < 12 && 0 <= dayInYear < DaysBeforeMonth(y, m + 1)
    ensures 0 <= r <= m && DaysBeforeMonth(y, r) <= dayInYear < DaysBeforeMonth(y, r + 1)
  {
    if DaysBeforeMonth(y, m) <= dayInYear then m else MonthFrom(y, m - 1, dayInYear)
  }

  lemma MakeDayInYear(y: int, m: int, d: int)
    requires 0 <= m < 12
    ensures MakeDay(y, m, d) == DayOfDate(y, m, d)
  {
    assert m / 12 == 0 && m % 12 == m;
  }

  /** MonthFromTime and DateFromTime, for a day of year y. */
  function CivilInYear(y: int, dayInYear: int): (c: Civil)
    requires 0 <= dayInYear < DaysInYear(y)
    ensures c.year == y && ValidCivil(c) && DaysBeforeMonth(y, c.month) + c.date - 1 == dayInYear
  {
    YearIsTwelveMonths(y);
    var m := MonthFrom(y, 11, dayInYear);
    Civil(y, m, dayInYear - DaysBeforeMonth(y, m) + 1)
  }

  /** YearFromTime, MonthFromTime and DateFromTime together, on day numbers. */
  function CivilFromDay(day: int): (c: Civil)
    ensures ValidCivil(c) && MakeDay(c.year, c.month, c.date) == day
  {
    var y := YearFromDay(day);
    DayFromYearStep(y);
    var c := CivilInYear(y, day - DayFromYear(y));
    MakeDayInYear(y, c.month, c.date);
    c
  }

  lemma YearOfDay(day: int)
    ensures CivilFromDay(day).year == YearFromDay(day)
  {
  }

  lemma CivilInYearUnique(c: Civil)
    requires ValidCivil(c)
    ensures var n := DaysBeforeMonth(c.year, c.month) + c.date - 1;
      0 <= n < DaysInYear(c.year) && CivilInYear(c.year, n) == c
  {
    var n := DaysBeforeMonth(c.year, c.month) + c.date - 1;
    YearIsTwelveMonths(c.year);
    DaysBeforeMonthMonotone(c.year, c.month + 1, 12);
    DaysBeforeMonthMonotone(c.year, 0, c.month);
    var b := CivilInYear(c.year, n);
    if b.month < c.month {
      DaysBeforeMonthMonotone(c.year, b.month + 1, c.month);
    } else if c.month < b.month {
      DaysBeforeMonthMonotone(c.year, c.month + 1, b.month);
    }
  }

  /** Day numbers and valid calendar dates are in bijection. */
  lemma CivilRoundTrip(c: Civil)
    requires ValidCivil(c)
    ensures CivilFromDay(MakeDay(c.year, c.month, c.date)) == c
  {
    CivilInYearUnique(c);
    MakeDayInYear(c.year, c.month, c.date);
    DayFromYearStep(c.year);
    YearFromDayUnique(MakeDay(c.year, c.month, c.date), c.year);
  }

  /** The date of any day is the standard's: month and day of the month as the table says of its place in the year. */
  lemma CivilByTheTable(day: int)
    ensures var y := CivilFromDay(day).year;
      var n, leap := day - DayFromYear(y), DayFromYear(y + 1) - DayFromYear(y) - 365;
      && 0 <= n < 365 + leap
      && CivilFromDay(day) ==
           if n < 31 then Civil(y, 0, n + 1)
           else if n < 59 + leap then Civil(y, 1, n - 30)
           else if n < 90 + leap then Civil(y, 2, n - 58 - leap)
           else if n < 120 + leap then Civil(y, 3, n - 89 - leap)
           else if n < 151 + leap then Civil(y, 4, n - 119 - leap)
           else if n < 181 + leap then Civil(y, 5, n - 150 - leap)
           else if n < 212 + leap then Civil(y, 6, n - 180 - leap)
           else if n < 243 + leap then Civil(y, 7, n - 211 - leap)
           else if n < 273 + leap then Civil(y, 8, n - 242 - leap)
           else if n < 304 + leap then Civil(y, 9, n - 272 - leap)
           else if n < 334 + leap then Civil(y, 10, n - 303 - leap)
           else Civil(y, 11, n - 333 - leap)
  {
    var c := CivilFromDay(day);
    PlaceInYear(day);
    hide DayFromYear, DaysBeforeMonth, CivilFromDay;
    MonthOfTable(c.year, c.month);
    var n, leap := day - DayFromYear(c.year), DayFromYear(c.year + 1) - DayFromYear(c.year) - 365;
    hide MonthRow;
    PlaceInTable(c, n, leap, DaysBeforeMonth(c.year, c.month), DaysBeforeMonth(c.year, c.month + 1));
  }

  lemma PlaceInYear(day: int)
    ensures var c := CivilFromDay(day);
      var n, leap := day - DayFromYear(c.year), DayFromYear(c.year + 1) - DayFromYear(c.year) - 365;
      && 0 <= n < 365 + leap && 0 <= leap <= 1
      && DaysBeforeMonth(c.year, c.month) <= n < DaysBeforeMonth(c.year, c.month + 1)
      && c.date == n - DaysBeforeMonth(c.year, c.month) + 1
  {
    hide DayFromYear, DaysInMonth, DaysBeforeMonth, MakeDay, IsLeap, CivilInYear;
    var y := YearFromDay(day);
    DayFromYearStep(y);
    DateIsInItsMonth(CivilInYear(y, day - DayFromYear(y)));
  }

  /** Where a month begins and ends in the table. */
  function MonthRow(m: int, leap: int): (int, int) {
    if m == 0 then (0, 31)
    else if m == 1 then (31, 59 + leap)
    else if m == 2 then (59 + leap, 90 + leap)
    else if m == 3 then (90 + leap, 120 + leap)
    else if m == 4 then (120 + leap, 151 + leap)
    else if m == 5 then (151 + leap, 181 + leap)
    else if m == 6 then (181 + leap, 212 + leap)
    else if m == 7 then (212 + leap, 243 + leap)
    else if m == 8 then (243 + leap, 273 + leap)
    else if m == 9 then (273 + leap, 304 + leap)
    else if m == 10 then (304 + leap, 334 + leap)
    else (334 + leap, 365 + leap)
  }

  lemma MonthOfTable(y: int, m: int)
    requires 0 <= m < 12
    ensures (DaysBeforeMonth(y, m), DaysBeforeMonth(y, m + 1)) == MonthRow(m, DayFromYear(y + 1) - DayFromYear(y) - 365)
  {
    MonthTable(y);
    hide DayFromYear, DaysBeforeMonth;
  }

  lemma PlaceInTable(c: Civil, n: int, leap: int, first: int, next: int)
    requires 0 <= c.month < 12 && 0 <= leap <= 1 && (first, next) == MonthRow(c.month, leap)
    requires first <= n < next && c.date == n - first + 1
    ensures c ==
      if n < 31 then Civil(c.year, 0, n + 1)
      else if n < 59 + leap then Civil(c.year, 1, n - 30)
      else if n < 90 + leap then Civil(c.year, 2, n - 58 - leap)
      else if n < 120 + leap then Civil(c.year, 3, n - 89 - leap)
      else if n < 151 + leap then Civil(c.year, 4, n - 119 - leap)
      else if n < 181 + leap then Civil(c.year, 5, n - 150 - leap)
      else if n < 212 + leap then Civil(c.year, 6, n - 180 - leap)
      else if n < 243 + leap then Civil(c.year, 7, n - 211 - leap)
      else if n < 273 + leap then Civil(c.year, 8, n - 242 - leap)
      else if n < 304 + leap then Civil(c.year, 9, n - 272 - leap)
      else if n < 334 + leap then Civil(c.year, 10, n - 303 - leap)
      else Civil(c.year, 11, n - 333 - leap)
  {
  }

  /** A date lies in its month. */
  lemma DateIsInItsMonth(c: Civil)
    requires ValidCivil(c)
    ensures DaysBeforeMonth(c.year, c.month) < DaysBeforeMonth(c.year, c.month) + c.date <= DaysBeforeMonth(c.year, c.month + 1)
  {
  }

  lemma YearStarts(day: int, y: int)
    ensures CivilFromDay(day) == Civil(y, 0, 1) <==> day == DayFromYear(y)
  {
    hide CivilFromDay, DayFromYear;
    CivilIsUnique(day, Civil(y, 0, 1));
  }

  lemma EpochYear(y: int)
    requires y == 1970
    ensures DayFromYear(y) == 0
  {
  }

  /** Day 0 is Thursday, 1 January 1970, */
  lemma Epoch(day: int)
    ensures day == 0 <==> CivilFromDay(day) == Civil(1970, 0, 1)
    ensures day == 0 ==> WeekDay(day) == 4
  {
    hide CivilFromDay, DayFromYear, MakeDay, DayOfDate;
    YearStarts(day, 1970);
    EpochYear(1970);
  }

  /** and the days of the week take turns. */
  lemma WeekDaysTakeTurns(day: int)
    ensures 0 <= WeekDay(day) < 7 && WeekDay(day + 1) == if WeekDay(day) == 6 then 0 else WeekDay(day) + 1
  {
  }

  function Year(t: int): int { CivilFromDay(Day(t)).year }

  function Month(t: int): int { CivilFromDay(Day(t)).month }

  function Date(t: int): int { CivilFromDay(Day(t)).date }

  // ---------------------------------------------------------------- constructors

  /** Date.UTC reads the years 0..99 as 1900..1999. */
  function FullYear(y: int): int { if 0 <= y <= 99 then 1900 + y else y }

  /** Date.UTC(y, m, d, h, mi). */
  function DateUTC(y: int, m: int, d: int, h: int, mi: int): int {
    MakeDay(FullYear(y), m, d) * MS_PER_DAY + h * MS_PER_HOUR + mi * MS_PER_MINUTE
  }

  /** Date.prototype.setUTCDate: the year, the month and the time of day stay, the date is replaced. */
  function WithDate(t: int, d: int): int {
    MakeDay(Year(t), Month(t), d) * MS_PER_DAY + TimeWithinDay(t)
  }

  /** Adding one to the date moves to the next day, over month ends, year ends and leap days alike. */
  lemma NextDateIsNextDay(t: int)
    ensures WithDate(t, Date(t) + 1) == t + MS_PER_DAY
    ensures Day(t + MS_PER_DAY) == Day(t) + 1
    ensures TimeWithinDay(t + MS_PER_DAY) == TimeWithinDay(t)
  {
    MakeDayStep(Year(t), Month(t), Date(t));
    DayAndTime(t);
    hide MakeDay, CivilFromDay, Day, TimeWithinDay;
  }

  lemma MakeDayStep(y: int, m: int, d: int)
    ensures MakeDay(y, m, d + 1) == MakeDay(y, m, d) + 1
  {
  }

  lemma DayAndTime(t: int)
    ensures t == Day(t) * MS_PER_DAY + TimeWithinDay(t)
    ensures Day(t + MS_PER_DAY) == Day(t) + 1 && TimeWithinDay(t + MS_PER_DAY) == TimeWithinDay(t)
  {
  }

  // ---------------------------------------------------------------- how far a day-of-month can be

  function NextMonth(c: Civil): Civil
    requires 0 <= c.month < 12
  {
    if c.month == 11 then Civil(c.year + 1, 0, 1) else Civil(c.year, c.month + 1, 1)
  }

  lemma MonthEndsWhereNextBegins(c: Civil)
    requires 0 <= c.month < 12
    ensures var d := NextMonth(c);
      DayOfDate(d.year, d.month, 1) == DayOfDate(c.year, c.month, DaysInMonth(c.year, c.month) + 1)
  {
    if c.month == 11 {
      YearIsTwelveMonths(c.year);
      DayFromYearStep(c.year);
    }
  }

  /** A month too short for a date 1..31 is followed by one that is not. */
  lemma ShortMonthsAreIsolated(c: Civil, date: int)
    requires 0 <= c.month < 12 && DaysInMonth(c.year, c.month) < date <= 31
    ensures date <= DaysInMonth(NextMonth(c).year, NextMonth(c).month)
  {
  }

  function DayOf(c: Civil): int
    requires 0 <= c.month < 12
  {
    DayOfDate(c.year, c.month, c.date)
  }

  /** The calendar date is the only valid one with its day number. */
  lemma CivilIsUnique(day: int, c: Civil)
    requires ValidCivil(c)
    ensures DayOf(c) == day <==> CivilFromDay(day) == c
  {
    MakeDayInYear(c.year, c.month, c.date);
    CivilRoundTrip(c);
    var b := CivilFromDay(day);
    MakeDayInYear(b.year, b.month, b.date);
  }

  /** From any calendar date, the next one that bears the given day of the month. */
  lemma NextDated(c: Civil, date: int) returns (h: Civil)
    requires ValidCivil(c) && 1 <= date <= 31
    ensures ValidCivil(h) && h.date == date
    ensures DayOf(c) <= DayOf(h) <= DayOf(c) + 60
    ensures date <= 28 ==> DayOf(h) <= DayOf(c) + 30
  {
    if c.date <= date <= DaysInMonth(c.year, c.month) {
      return c.(date := date);
    }
    var d := NextMonth(c);
    MonthEndsWhereNextBegins(c);
    if date <= DaysInMonth(d.year, d.month) {
      return d.(date := date);
    }
    var e := NextMonth(d);
    MonthEndsWhereNextBegins(d);
    ShortMonthsAreIsolated(d, date);
    h := e.(date := date);
    if DaysInMonth(c.year, c.month) < date {
      ShortMonthsAreIsolated(c, date);
    }
  }

  /** Every date 1..31 recurs: no day is more than 60 days before the next one that bears the date. */
  lemma DateRecurs(day: int, date: int) returns (hit: int)
    requires 1 <= date <= 31
    ensures day <= hit <= day + 60 && CivilFromDay(hit).date == date
    ensures date <= 28 ==> hit <= day + 30
  {
    var c := CivilFromDay(day);
    CivilIsUnique(day, c);
    var h := NextDated(c, date);
    hit := DayOf(h);
    CivilIsUnique(hit, h);
  }
}
