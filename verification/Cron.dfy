/**
 The scheduled-report sweeper: the search for the next firing instant and the
 catch-up after downtime (apps/api/src/workers/scheduled-report.worker.ts).
 An expression reaches this model already split at white space, each part
 classified by what the worker's tests on it can tell apart.
 */
module Cron {
  import opened Wrappers
  import opened Calendar
  import opened OldestFirst

  /** `*`, a step such as `*` `/15`, a part that Number() reads as an integer, or anything else. */
  datatype Part = Star | Step(n: nat) | Num(k: int) | Junk

  datatype CronError = BadLength | BadMinute | BadHour | BadWeekday | BadDayOfMonth

  datatype DayRule = AnyDay | OnWeekday(weekday: int) | OnDate(date: int)

  datatype Schedule =
    | EveryMinutes(n: int)
    | AtTime(hour: int, minute: int, days: DayRule)

  predicate ValidRule(d: DayRule) {
    && (d.OnWeekday? ==> 0 <= d.weekday <= 6)
    && (d.OnDate? ==> 1 <= d.date <= 31)
  }

  predicate ValidSchedule(s: Schedule) {
    match s
    case EveryMinutes(n) => 1 <= n
    case AtTime(h, m, d) => 0 <= h <= 23 && 0 <= m <= 59 && ValidRule(d)
  }

  predicate ClockSchedule(s: Schedule) { s.AtTime? && ValidSchedule(s) }

  predicate InRange(p: Part, lo: int, hi: int) { p.Num? && lo <= p.k <= hi }

  /** What an expression means, or which complaint rejects it; the first failing test wins. */
  function Parse(parts: seq<Part>): (r: Result<Schedule, CronError>)
    ensures r.Ok? ==> ValidSchedule(r.value)
  {
    if |parts| != 5 then Err(BadLength)
    else if forall i :: 0 <= i < 5 ==> parts[i] == Star then Ok(EveryMinutes(1))
    else if parts[0].Step? && forall i :: 1 <= i < 5 ==> parts[i] == Star then
      Ok(EveryMinutes(if parts[0].n < 1 then 1 else parts[0].n))
    else if !InRange(parts[0], 0, 59) then Err(BadMinute)
    else if !InRange(parts[1], 0, 23) then Err(BadHour)
    else if parts[4] != Star then
      if InRange(parts[4], 0, 6) then Ok(AtTime(parts[1].k, parts[0].k, OnWeekday(parts[4].k))) else Err(BadWeekday)
    else if parts[2] != Star then
      if InRange(parts[2], 1, 31) then Ok(AtTime(parts[1].k, parts[0].k, OnDate(parts[2].k))) else Err(BadDayOfMonth)
    else Ok(AtTime(parts[1].k, parts[0].k, AnyDay))
  }

  // ---------------------------------------------------------------- meaning

  predicate DayMatches(rule: DayRule, day: int) {
    match rule
    case AnyDay => true
    case OnWeekday(w) => WeekDay(day) == w
    case OnDate(d) => CivilFromDay(day).date == d
  }

  function TimeOfDay(s: Schedule): (ms: int)
    requires ClockSchedule(s)
    ensures 0 <= ms < MS_PER_DAY
  {
    s.hour * MS_PER_HOUR + s.minute * MS_PER_MINUTE
  }

  /** Which expressions are refused, and by which complaint. */
  lemma WhenRefused(parts: seq<Part>)
    ensures var r := Parse(parts);
      var five := |parts| == 5;
      var steps := five && (parts[0] == Star || parts[0].Step?) && forall i :: 1 <= i < 5 ==> parts[i] == Star;
      var minute := five && parts[0].Num? && 0 <= parts[0].k < 60;
      var hour := five && parts[1].Num? && 0 <= parts[1].k < 24;
      var weekday := five && (parts[4] == Star || (parts[4].Num? && 0 <= parts[4].k < 7));
      var date := five && (parts[4] != Star || parts[2] == Star || (parts[2].Num? && 0 < parts[2].k < 32));
      && (r == Err(BadLength) <==> !five)
      && (r == Err(BadMinute) <==> five && !steps && !minute)
      && (r == Err(BadHour) <==> !steps && minute && !hour)
      && (r == Err(BadWeekday) <==> minute && hour && !weekday)
      && (r == Err(BadDayOfMonth) <==> minute && hour && weekday && !date)
      && (r.Ok? <==> steps || (minute && hour && weekday && date))
  {
  }

  /**
   And what the others mean.  Stars alone, or behind a step, are steps of whole
   minutes.  Otherwise minute and hour give the time of day in UTC; a weekday
   part counts from Sunday, and day 3, 4 January 1970, was one; a day of the
   month counts only beside no weekday.
   */
  lemma WhatExpressionsMean(parts: seq<Part>, t: int)
    requires Parse(parts).Ok?
    ensures var s := Parse(parts).value;
      && (s.EveryMinutes? <==> !parts[0].Num?)
      && (parts[0] == Star ==> s.n == 1)
      && (parts[0].Step? ==> s.n >= parts[0].n && (s.n == parts[0].n || (s.n == 1 && parts[0].n == 0)))
      && (parts[0].Num? ==>
           && ClockSchedule(s)
           && (Fires(s, t) <==>
                && t % 86_400_000 == parts[1].k * 3_600_000 + parts[0].k * 60_000
                && (parts[4].Num? ==> (t / 86_400_000 - 3 - parts[4].k) % 7 == 0)
                && (parts[4] == Star && parts[2].Num? ==> Date(t) == parts[2].k)))
  {
    hide CivilFromDay;
    if parts[4].Num? {
      SundaysAndOn(t / 86_400_000, parts[4].k);
    }
  }

  lemma SundaysAndOn(day: int, weekday: int)
    requires 0 <= weekday < 7
    ensures WeekDay(day) == weekday <==> (day - 3 - weekday) % 7 == 0
  {
  }

  /** The instants a clock schedule fires at, to the millisecond. */
  predicate Fires(s: Schedule, t: int)
    requires ClockSchedule(s)
  {
    TimeWithinDay(t) == TimeOfDay(s) && DayMatches(s.days, Day(t))
  }

  /** r is the earliest firing instant strictly after t. */
  ghost predicate IsNextFiring(s: Schedule, t: int, r: int)
    requires ClockSchedule(s)
  {
    && t < r
    && Fires(s, r)
    && forall u :: t < u < r ==> !Fires(s, u)
  }

  /** The instant at a given time of a given day. */
  function At(day: int, time: int): (t: int)
    requires 0 <= time < MS_PER_DAY
    ensures Day(t) == day && TimeWithinDay(t) == time
  {
    day * MS_PER_DAY + time
  }

  /**
   Days decide: when the time of day has not passed on the first day, and no
   day before the last one matches, the last day's firing is the next one.
   */
  lemma NextFiringByDay(s: Schedule, t: int, first: int, last: int)
    requires ClockSchedule(s)
    requires t < At(first, TimeOfDay(s))
    requires At(first, TimeOfDay(s)) - MS_PER_DAY <= t
    requires first <= last && DayMatches(s.days, last)
    requires forall d :: first <= d < last ==> !DayMatches(s.days, d)
    ensures IsNextFiring(s, t, At(last, TimeOfDay(s)))
  {
    forall u | t < u < At(last, TimeOfDay(s)) ensures !Fires(s, u) {
      if TimeWithinDay(u) == TimeOfDay(s) {
        assert u == At(Day(u), TimeOfDay(s));
        assert first <= Day(u) < last;
      }
    }
  }

  /** From any day the next matching one is at most 60 days on. */
  lemma NextDayExists(rule: DayRule, day: int) returns (hit: int)
    requires ValidRule(rule)
    ensures day <= hit <= day + 60 && DayMatches(rule, hit)
    ensures rule.OnWeekday? ==> hit <= day + 6
    ensures rule.AnyDay? ==> hit == day
  {
    match rule
    case AnyDay => hit := day;
    case OnWeekday(w) => hit := day + (w - WeekDay(day)) % 7;
    case OnDate(d) => hit := DateRecurs(day, d);
  }

  lemma NextFiringIsUnique(s: Schedule, t: int, a: int, b: int)
    requires ClockSchedule(s) && IsNextFiring(s, t, a) && IsNextFiring(s, t, b)
    ensures a == b
  {
  }

  // ---------------------------------------------------------------- the Date object

  /** The worker's mutable `next`. */
  class UtcDate {
    var time: int

    constructor (t: int)
      ensures time == t
    {
      time := t;
    }

    function GetTime(): int reads this { time }

    function GetUTCDate(): int reads this { Date(time) }

    function GetUTCDay(): int reads this { WeekDay(Day(time)) }

    method SetUTCDate(d: int)
      modifies this
      ensures time == WithDate(old(time), d)
    {
      time := WithDate(time, d);
    }
  }

  method BumpDate(next: UtcDate)
    modifies next
    ensures next.time == old(next.time) + MS_PER_DAY
    ensures Day(next.time) == Day(old(next.time)) + 1
    ensures TimeWithinDay(next.time) == TimeWithinDay(old(next.time))
  {
    NextDateIsNextDay(next.time);
    next.SetUTCDate(next.GetUTCDate() + 1);
  }


  // ---------------------------------------------------------------- the search

  /** The bound on every search, from any instant. */
  lemma NextFiringWithin61Days(s: Schedule, t: int)
    requires ClockSchedule(s)
    ensures exists r :: t < r <= t + 61 * MS_PER_DAY && Fires(s, r)
  {
    var first := if t < At(Day(t), TimeOfDay(s)) then Day(t) else Day(t) + 1;
    var hit := NextDayExists(s.days, first);
    assert Fires(s, At(hit, TimeOfDay(s)));
  }

  /** Where the search starts: the time of day on the day of `from`, as Date.UTC builds it. */
  function StartOfSearch(s: Schedule, from: int): int
    requires ClockSchedule(s)
  {
    DateUTC(Year(from), Month(from), Date(from), s.hour, s.minute)
  }

  predicate Remapped(t: int) { 0 <= Year(t) <= 99 }

  lemma SearchStartsToday(s: Schedule, from: int)
    requires ClockSchedule(s) && !Remapped(from)
    ensures StartOfSearch(s, from) == At(Day(from), TimeOfDay(s))
  {
  }

  lemma {:induction false} LeapDayShiftsAtMostOne(y: int, z: int, m: int)
    requires 0 <= m <= 12
    ensures DaysBeforeMonth(y, m) - 1 <= DaysBeforeMonth(z, m)
  {
    if m > 0 {
      LeapDayShiftsAtMostOne(y, z, m - 1);
    }
  }

  lemma NineteenCenturiesLater(c: Civil)
    requires ValidCivil(c)
    ensures MakeDay(c.year + 1900, c.month, c.date) >= MakeDay(c.year, c.month, c.date) + 693_000
  {
    MakeDayInYear(c.year, c.month, c.date);
    MakeDayInYear(c.year + 1900, c.month, c.date);
    DayFromYearMonotone(c.year, c.year + 1900);
    LeapDayShiftsAtMostOne(c.year, c.year + 1900, c.month);
  }

  /** In the first century the two-digit year sends the search nineteen centuries ahead. */
  lemma SearchStartsCenturiesLater(s: Schedule, from: int)
    requires ClockSchedule(s) && Remapped(from)
    ensures StartOfSearch(s, from) > from + 600_000 * MS_PER_DAY
    ensures TimeWithinDay(StartOfSearch(s, from)) == TimeOfDay(s)
  {
    var c := CivilFromDay(Day(from));
    NineteenCenturiesLater(c);
    assert StartOfSearch(s, from) == At(MakeDay(c.year + 1900, c.month, c.date), TimeOfDay(s));
  }

  /** The first loop: step to the first day whose time of day is still ahead. */
  method SeekFuture(from: int, hour: int, minute: int) returns (next: UtcDate)
    requires 0 <= hour <= 23 && 0 <= minute <= 59
    ensures fresh(next)
    ensures from < next.time && TimeWithinDay(next.time) == TimeOfDay(AtTime(hour, minute, AnyDay))
    ensures if Remapped(from) then next.time > from + 600_000 * MS_PER_DAY else next.time - MS_PER_DAY <= from
  {
    ghost var clock := AtTime(hour, minute, AnyDay);
    next := new UtcDate(DateUTC(Year(from), Month(from), Date(from), hour, minute));
    if Remapped(from) {
      SearchStartsCenturiesLater(clock, from);
    } else {
      SearchStartsToday(clock, from);
    }
    while next.GetTime() <= from
      invariant TimeWithinDay(next.time) == TimeOfDay(clock)
      invariant if Remapped(from) then next.time > from + 600_000 * MS_PER_DAY else next.time - MS_PER_DAY <= from
      decreases from - next.time
    {
      BumpDate(next);
    }
  }

  /** next is now the first matching day from where it was, at the same time of day. */
  twostate predicate Sought(next: UtcDate, rule: DayRule)
    reads next
  {
    && TimeWithinDay(next.time) == TimeWithinDay(old(next.time))
    && Day(old(next.time)) <= Day(next.time) <= Day(old(next.time)) + 60
    && DayMatches(rule, Day(next.time))
    && forall d :: Day(old(next.time)) <= d < Day(next.time) ==> !DayMatches(rule, d)
  }

  method SeekWeekday(next: UtcDate, weekday: int)
    requires 0 <= weekday <= 6
    modifies next
    ensures Sought(next, OnWeekday(weekday))
  {
    hide CivilFromDay, WithDate;
    ghost var first := Day(next.time);
    ghost var hit := NextDayExists(OnWeekday(weekday), first);
    while next.GetUTCDay() != weekday
      invariant TimeWithinDay(next.time) == TimeWithinDay(old(next.time))
      invariant first <= Day(next.time) <= hit
      invariant forall d :: first <= d < Day(next.time) ==> !DayMatches(OnWeekday(weekday), d)
      decreases hit - Day(next.time)
    {
      BumpDate(next);
    }
  }

  method SeekDate(next: UtcDate, date: int)
    requires 1 <= date <= 31
    modifies next
    ensures Sought(next, OnDate(date))
  {
    hide CivilFromDay, WithDate;
    ghost var first := Day(next.time);
    ghost var hit := NextDayExists(OnDate(date), first);
    while next.GetUTCDate() != date
      invariant TimeWithinDay(next.time) == TimeWithinDay(old(next.time))
      invariant first <= Day(next.time) <= hit
      invariant forall d :: first <= d < Day(next.time) ==> !DayMatches(OnDate(date), d)
      decreases hit - Day(next.time)
    {
      BumpDate(next);
    }
  }

  /** What one search returns; the exact condition for it to be the next firing is the last clause. */
  ghost predicate Advanced(s: Schedule, from: int, r: int)
    requires ValidSchedule(s)
  {
    match s
    case EveryMinutes(n) => r == from + n * MS_PER_MINUTE
    case AtTime(_, _, _) =>
      && from < r && Fires(s, r)
      && (!Remapped(from) ==> r <= from + 61 * MS_PER_DAY)
      && (IsNextFiring(s, from, r) <==> !Remapped(from))
  }

  lemma SearchFindsNextFiring(s: Schedule, from: int, start: int, r: int)
    requires ClockSchedule(s) && from < start && TimeWithinDay(start) == TimeWithinDay(r) == TimeOfDay(s)
    requires Day(start) <= Day(r) <= Day(start) + 60 && DayMatches(s.days, Day(r))
    requires forall d :: Day(start) <= d < Day(r) ==> !DayMatches(s.days, d)
    requires if Remapped(from) then start > from + 600_000 * MS_PER_DAY else start - MS_PER_DAY <= from
    ensures Advanced(s, from, r)
  {
    assert start == At(Day(start), TimeOfDay(s)) && r == At(Day(r), TimeOfDay(s));
    if Remapped(from) {
      NextFiringWithin61Days(s, from);
    } else {
      NextFiringByDay(s, from, Day(start), Day(r));
    }
  }

  /** An instance: from 15 November 2024, midnight on the first of the month is next on 1 December, sixteen days on. */
  lemma FirstOfDecember(s: Schedule, from: int)
    requires s == AtTime(0, 0, OnDate(1)) && from == 20_042 * MS_PER_DAY
    ensures IsNextFiring(s, from, from + 16 * MS_PER_DAY)
    ensures CivilFromDay(Day(from)) == Civil(2024, 10, 15) && CivilFromDay(Day(from) + 16) == Civil(2024, 11, 1)
  {
    var today := Day(from);
    assert today == 20_042 && from == At(today, 0);
    hide CivilFromDay, IsNextFiring, Day, TimeWithinDay;
    forall d | today <= d < today + 16 ensures CivilFromDay(d) == Civil(2024, 10, d - 20_027) {
      InNovember2024(d, 2024);
    }
    FirstOfDecember2024(today + 16, 2024);
    NextMidnight(s, from, today);
  }

  lemma NextMidnight(s: Schedule, from: int, today: int)
    requires s == AtTime(0, 0, OnDate(1)) && from == At(today, 0)
    requires forall d :: today < d < today + 16 ==> CivilFromDay(d).date != 1
    requires CivilFromDay(today + 16).date == 1
    ensures IsNextFiring(s, from, from + 16 * MS_PER_DAY)
  {
    hide CivilFromDay, IsNextFiring;
    assert At(today + 16, 0) == from + 16 * MS_PER_DAY;
    NextFiringByDay(s, from, today + 1, today + 16);
  }

  lemma InNovember2024(d: int, y: int)
    requires 20_042 <= d < 20_058 && y == 2024
    ensures CivilFromDay(d) == Civil(y, 10, d - 20_027)
  {
    MonthTable(y);
    YearLengths(y);
    hide CivilFromDay, DaysBeforeMonth;
    CivilIsUnique(d, Civil(y, 10, d - 20_027));
  }

  lemma FirstOfDecember2024(d: int, y: int)
    requires d == 20_058 && y == 2024
    ensures CivilFromDay(d) == Civil(y, 11, 1)
  {
    MonthTable(y);
    YearLengths(y);
    hide CivilFromDay, DaysBeforeMonth;
    CivilIsUnique(d, Civil(y, 11, 1));
  }

  method AdvanceCron(parts: seq<Part>, from: int) returns (r: Result<int, CronError>)
    ensures Parse(parts).Err? ==> r == Err(Parse(parts).error)
    ensures Parse(parts).Ok? ==> r.Ok? && Advanced(Parse(parts).value, from, r.value)
  {
    hide Fires, IsNextFiring, WeekDay, CivilFromDay;
    if |parts| != 5 {
      return Err(BadLength);
    }
    if forall i :: 0 <= i < 5 ==> parts[i] == Star {
      return Ok(from + MS_PER_MINUTE);
    }
    if parts[0].Step? && parts[1] == Star && parts[2] == Star && parts[3] == Star && parts[4] == Star {
      return Ok(from + (if parts[0].n < 1 then 1 else parts[0].n) * MS_PER_MINUTE);
    }
    if !InRange(parts[0], 0, 59) {
      return Err(BadMinute);
    }
    if !InRange(parts[1], 0, 23) {
      return Err(BadHour);
    }
    var next := SeekFuture(from, parts[1].k, parts[0].k);
    ghost var start := next.time;
    if parts[4] != Star {
      if !InRange(parts[4], 0, 6) {
        return Err(BadWeekday);
      }
      SeekWeekday(next, parts[4].k);
    } else if parts[2] != Star {
      if !InRange(parts[2], 1, 31) {
        return Err(BadDayOfMonth);
      }
      SeekDate(next, parts[2].k);
    }
    SearchFindsNextFiring(Parse(parts).value, from, start, next.time);
    r := Ok(next.time);
  }

  // ---------------------------------------------------------------- catching up

  /**
   Where a recovering worker puts a report that was due at `prev`: on the clock,
   exactly where one search from `now` would; on a step, the first point of the
   orbit of `prev` that lies after `now`, so the phase survives the downtime.
   */
  ghost predicate CaughtUp(s: Schedule, prev: int, now: int, next: int)
    requires ValidSchedule(s)
  {
    && prev < next && now < next
    && match s
       case EveryMinutes(n) =>
         exists k: int :: 1 <= k && next == prev + Orbit(n, k) && (k == 1 || prev + Orbit(n, k - 1) <= now)
       case AtTime(_, _, _) =>
         && Fires(s, next)
         && (100 <= Year(prev) && prev <= now ==> Advanced(s, now, next))
  }

  /** k steps of n minutes. */
  function Orbit(n: int, k: int): int { k * (n * MS_PER_MINUTE) }

  lemma YearsOnlyGrow(a: int, b: int)
    requires a <= b
    ensures Year(a) <= Year(b)
  {
    YearFromDayMonotone(Day(a), Day(b));
  }

  lemma AdvanceMovesForward(s: Schedule, from: int, r: int)
    requires ValidSchedule(s) && Advanced(s, from, r)
    ensures from < r
  {
  }

  /** Stepping once from the last firing that has passed is stepping from now. */
  lemma LastStepIsFromNow(s: Schedule, cur: int, now: int, next: int)
    requires ClockSchedule(s) && Advanced(s, cur, next) && cur <= now < next
    requires 100 <= Year(cur)
    ensures Advanced(s, now, next)
  {
    YearsOnlyGrow(cur, now);
    NextFiringWithin61Days(s, now);
  }

  lemma OrbitStep(n: int, k: int)
    ensures Orbit(n, k + 1) == Orbit(n, k) + n * MS_PER_MINUTE
    ensures Orbit(n, 0) == 0 && Orbit(n, 1) == n * MS_PER_MINUTE
  {
  }

  method CatchUp(parts: seq<Part>, prev: int, now: int) returns (r: Result<int, CronError>)
    ensures Parse(parts).Err? ==> r == Err(Parse(parts).error)
    ensures Parse(parts).Ok? ==> r.Ok? && CaughtUp(Parse(parts).value, prev, now, r.value)
  {
    r := AdvanceCron(parts, prev);
    if r.Err? {
      return;
    }
    ghost var s := Parse(parts).value;
    var next := r.value;
    ghost var cur, k := prev, 1;
    AdvanceMovesForward(s, cur, next);
    if s.EveryMinutes? {
      OrbitStep(s.n, 0);
    }
    while next <= now
      invariant prev <= cur < next && Advanced(s, cur, next)
      invariant cur == prev || cur <= now
      invariant s.EveryMinutes? ==> 1 <= k && next == prev + Orbit(s.n, k) && cur == prev + Orbit(s.n, k - 1)
      invariant k == 1 <==> cur == prev
      decreases now - next
    {
      cur, k := next, k + 1;
      if s.EveryMinutes? {
        OrbitStep(s.n, k - 1);
      }
      r := AdvanceCron(parts, next);
      next := r.value;
      AdvanceMovesForward(s, cur, next);
    }
    if s.AtTime? && 100 <= Year(prev) && prev <= now {
      YearsOnlyGrow(prev, cur);
      LastStepIsFromNow(s, cur, now, next);
    }
    r := Ok(next);
  }

  /** For a clock schedule, whatever downtime the loop crosses, its answer is the one a single search gives. */
  lemma CatchUpIsOneSearch(s: Schedule, prev: int, now: int, looped: int, direct: int)
    requires ClockSchedule(s) && 100 <= Year(prev) && prev <= now
    requires CaughtUp(s, prev, now, looped) && Advanced(s, now, direct)
    ensures looped == direct
  {
    YearsOnlyGrow(prev, now);
    NextFiringIsUnique(s, now, looped, direct);
  }

  /** For a step schedule the two differ unless the downtime is a whole number of steps. */
  lemma CatchUpKeepsPhase(s: Schedule, prev: int, now: int, looped: int, direct: int)
    requires s.EveryMinutes? && ValidSchedule(s) && prev <= now
    requires CaughtUp(s, prev, now, looped) && Advanced(s, now, direct)
    ensures (looped - prev) % (s.n * MS_PER_MINUTE) == 0 && now < looped <= now + s.n * MS_PER_MINUTE
    ensures looped == direct <==> (now - prev) % (s.n * MS_PER_MINUTE) == 0
  {
    var p := s.n * MS_PER_MINUTE;
    var k: int :| 1 <= k && looped == prev + Orbit(s.n, k) && (k == 1 || prev + Orbit(s.n, k - 1) <= now);
    OrbitStep(s.n, k - 1);
    MultipleHasNoRemainder(p, k);
    if looped == direct {
      OrbitStep(s.n, k - 1);
      MultipleHasNoRemainder(p, k - 1);
    } else {
      RemainderInside(p, k - 1, now - prev);
    }
  }

  // ---------------------------------------------------------------- slots lost to downtime

  /** The instants a schedule whose last due time was prev is due at after it. */
  predicate IsSlot(s: Schedule, prev: int, u: int)
    requires ValidSchedule(s)
  {
    match s
    case EveryMinutes(n) => (u - prev) % (n * MS_PER_MINUTE) == 0
    case AtTime(_, _, _) => Fires(s, u)
  }

  /** The slots that fell due after the one at prev while the worker was down until now. */
  function MissedSlots(s: Schedule, prev: int, now: int): set<int>
    requires ValidSchedule(s)
  {
    set u | prev < u <= now && IsSlot(s, prev, u)
  }

  /**
   A worker that serves the row due at prev and moves it past now loses no slot
   if and only if the first advance is already past now, that is if its
   catch-up loop never runs.  In the years 0..99 that first advance skips slots
   by itself: there 61 days of downtime always lose one.
   */
  lemma WhenNoSlotIsLost(s: Schedule, prev: int, now: int, first: int)
    requires ValidSchedule(s) && prev <= now && Advanced(s, prev, first)
    ensures first <= now ==> MissedSlots(s, prev, now) != {}
    ensures (s.AtTime? ==> !Remapped(prev)) ==> (MissedSlots(s, prev, now) == {} <==> now < first)
    ensures s.AtTime? && prev + 61 * MS_PER_DAY <= now ==> MissedSlots(s, prev, now) != {}
  {
    if s.EveryMinutes? {
      WhenNoStepIsLost(s, prev, now);
    } else {
      hide Fires, Remapped;
      if first <= now { assert first in MissedSlots(s, prev, now); }
      NextFiringWithin61Days(s, prev);
      var r :| prev < r <= prev + 61 * MS_PER_DAY && Fires(s, r);
      if r <= now { assert r in MissedSlots(s, prev, now); }
    }
  }

  lemma WhenNoStepIsLost(s: Schedule, prev: int, now: int)
    requires s.EveryMinutes? && ValidSchedule(s) && prev <= now
    ensures MissedSlots(s, prev, now) == {} <==> now < prev + s.n * MS_PER_MINUTE
  {
    var p := s.n * MS_PER_MINUTE;
    if prev + p <= now {
      MultipleHasNoRemainder(p, 1);
      assert prev + p in MissedSlots(s, prev, now);
    } else {
      forall u | prev < u <= now ensures !IsSlot(s, prev, u) {
        RemainderInside(p, 0, u - prev);
      }
    }
  }

  /** The whole steps of p in x. */
  function Steps(p: int, x: int): int
    requires p > 0
  {
    x / p
  }

  /** The last point of the orbit of prev that is not after now. */
  function LastSlot(p: int, prev: int, now: int): int
    requires p > 0
  {
    prev + Steps(p, now - prev) * p
  }

  lemma LastSlotIsLast(p: int, prev: int, now: int)
    requires p > 0
    ensures now - p < LastSlot(p, prev, now) <= now
  {
    var q := Steps(p, now - prev);
    assert now - prev == p * q + (now - prev) % p;
  }

  lemma LastSlotIsTheOnlyOne(p: int, prev: int, now: int, u: int)
    requires p > 0 && now - p < u <= now
    ensures (u - prev) % p == 0 <==> u == LastSlot(p, prev, now)
  {
    var q := Steps(p, now - prev);
    LastSlotIsLast(p, prev, now);
    if u < LastSlot(p, prev, now) {
      assert (q - 1) * p == q * p - p;
      RemainderInside(p, q - 1, u - prev);
    } else {
      RemainderInside(p, q, u - prev);
    }
  }

  lemma OneStepLess(p: int, x: int)
    requires p > 0
    ensures Steps(p, x - p) == Steps(p, x) - 1
    ensures 0 <= x < p ==> Steps(p, x) == 0
    ensures x >= p ==> Steps(p, x) >= 1
  {
    var q, r := x / p, (x - p) / p;
    assert x == p * q + x % p && x - p == p * r + (x - p) % p;
    var e := q - 1 - r;
    assert p * e == (x - p) % p - x % p by { assert p * e == p * q - p - p * r; }
    if e >= 1 { MultipleIsAtLeast(p, e); }
    if e <= -1 { MultipleIsAtLeast(p, -e); }
    if q >= 1 { MultipleIsAtLeast(p, q); }
    if q <= -1 { MultipleIsAtLeast(p, -q); }
  }

  /** A step of n minutes loses exactly one slot for every whole step of downtime. */
  lemma {:induction false} StepSlotsLost(s: Schedule, prev: int, now: int)
    requires s.EveryMinutes? && ValidSchedule(s) && prev <= now
    ensures |MissedSlots(s, prev, now)| == Steps(s.n * MS_PER_MINUTE, now - prev)
    decreases now - prev
  {
    var p := s.n * MS_PER_MINUTE;
    OneStepLess(p, now - prev);
    WhenNoStepIsLost(s, prev, now);
    if now - prev >= p {
      StepSlotsLost(s, prev, now - p);
      LastStepIsLost(s, prev, now);
      var last := LastSlot(p, prev, now);
      assert last !in MissedSlots(s, prev, now - p) by { LastSlotIsLast(p, prev, now); }
    }
  }

  lemma LastStepIsLost(s: Schedule, prev: int, now: int)
    requires s.EveryMinutes? && ValidSchedule(s) && prev + s.n * MS_PER_MINUTE <= now
    ensures var p := s.n * MS_PER_MINUTE;
      MissedSlots(s, prev, now) == MissedSlots(s, prev, now - p) + {LastSlot(p, prev, now)}
  {
    var p := s.n * MS_PER_MINUTE;
    LastSlotIsLast(p, prev, now);
    var last := LastSlot(p, prev, now);
    forall u | now - p < u <= now ensures IsSlot(s, prev, u) <==> u == last {
      LastSlotIsTheOnlyOne(p, prev, now, u);
    }
    hide IsSlot, LastSlot;
  }

  /** The row of a step schedule skips them all and goes on from the last one. */
  lemma CatchUpSkipsTheLost(s: Schedule, prev: int, now: int, next: int)
    requires s.EveryMinutes? && ValidSchedule(s) && prev <= now && CaughtUp(s, prev, now, next)
    ensures next == LastSlot(s.n * MS_PER_MINUTE, prev, now) + s.n * MS_PER_MINUTE
    ensures forall u :: u in MissedSlots(s, prev, now) ==> u < next
  {
    var p := s.n * MS_PER_MINUTE;
    var k: int :| 1 <= k && next == prev + Orbit(s.n, k) && (k == 1 || prev + Orbit(s.n, k - 1) <= now);
    OrbitStep(s.n, k - 1);
    MultipleHasNoRemainder(p, k - 1);
    assert next - p - prev == (k - 1) * p;
    LastSlotIsTheOnlyOne(p, prev, now, next - p);
  }

  /** After n days down, a daily report due at midnight has slept through exactly the n midnights since. */
  lemma DowntimeLosesSlots(day: int, n: nat)
    ensures MissedSlots(AtTime(0, 0, AnyDay), At(day, 0), At(day + n, 0)) == set d | day < d <= day + n :: At(d, 0)
  {
    var midnights := set d | day < d <= day + n :: At(d, 0);
    forall u ensures u in MissedSlots(AtTime(0, 0, AnyDay), At(day, 0), At(day + n, 0)) <==> u in midnights {
      MidnightsAreWholeDays(u);
      if TimeWithinDay(u) == 0 {
        assert u == At(Day(u), 0);
      }
    }
  }

  lemma MidnightsAreWholeDays(u: int)
    ensures TimeWithinDay(u) == 0 <==> u == Day(u) * MS_PER_DAY
  {
  }

  lemma MultipleHasNoRemainder(p: int, k: int)
    requires p > 0
    ensures (k * p) % p == 0
  {
    RemainderInside(p, k, k * p);
  }

  lemma RemainderInside(p: int, k: int, x: int)
    requires p > 0 && k * p <= x < k * p + p
    ensures x % p == x - k * p
  {
    var q := x / p;
    assert x == p * q + x % p;
    var e := q - k;
    assert p * q == p * k + p * e && k * p == p * k;
    if e <= -1 {
      MultipleIsAtLeast(p, -e);
    } else if 1 <= e {
      MultipleIsAtLeast(p, e);
    }
  }

  lemma MultipleIsAtLeast(p: int, e: int)
    requires p > 0 && e >= 1
    ensures p * e >= p && p * -e <= -p
  {
  }

  // ---------------------------------------------------------------- the sweep

  datatype Report = Report(parts: seq<Part>, isActive: bool, nextRunAt: Option<int>, lastRunAt: Option<int>)

  predicate IsDue(r: Report, now: int) {
    r.isActive && r.nextRunAt.Some? && r.nextRunAt.value <= now
  }

  /** The due reports, with the times the query orders them by. */
  function DueTimes(reports: map<Id, Report>, now: int): map<Id, int> {
    map id | id in reports && IsDue(reports[id], now) :: reports[id].nextRunAt.value
  }

  /** The rows the sweep's query may return: due, oldest first, cut off at the batch size. */
  ghost predicate IsDueBatch(reports: map<Id, Report>, now: int, batch: nat, due: seq<Id>) {
    IsAnswer(DueTimes(reports, now), batch, due)
  }

  /** The query has an answer for every table. */
  lemma DueBatchExists(reports: map<Id, Report>, now: int, batch: nat) returns (due: seq<Id>)
    ensures IsDueBatch(reports, now, batch, due)
  {
    due := AnswerExists(DueTimes(reports, now), batch);
  }

  /**
   Whom a sweep takes: active reports whose time has come, this very millisecond
   included; and of them everyone who has fewer others than a batch not later.
   */
  lemma WhomASweepTakes(reports: map<Id, Report>, now: int, batch: nat, due: seq<Id>, id: Id)
    requires IsDueBatch(reports, now, batch, due) && id in reports
    ensures id in due ==> reports[id].isActive && reports[id].nextRunAt.Some? && reports[id].nextRunAt.value <= now
    ensures
      && reports[id].isActive && reports[id].nextRunAt.Some? && reports[id].nextRunAt.value <= now
      && (forall others: set<Id> ::
           (forall k :: k in others ==>
              && k in reports && k != id && reports[k].isActive && reports[k].nextRunAt.Some?
              && reports[k].nextRunAt.value <= reports[id].nextRunAt.value)
           ==> |others| < batch)
      ==> id in due
  {
    var times := DueTimes(reports, now);
    if id in times {
      WhenSelected(times, batch, due, id);
      var others := NotYounger(times, id);
      assert forall k :: k in others ==> k in times;
    }
  }

  function ServedOf(r: Report, id: Id, faults: set<Id>): seq<Id> {
    if id !in faults && Parse(r.parts).Ok? then [id] else []
  }

  /** The rows whose transaction commits: the expression parses and the database does not fail. */
  function Served(reports: map<Id, Report>, due: seq<Id>, faults: set<Id>): seq<Id>
    requires forall id :: id in due ==> id in reports
  {
    if due == [] then [] else ServedOf(reports[due[0]], due[0], faults) + Served(reports, due[1..], faults)
  }

  lemma {:induction false} ServedSnoc(reports: map<Id, Report>, due: seq<Id>, faults: set<Id>, id: Id)
    requires id in reports && forall i :: i in due ==> i in reports
    ensures Served(reports, due + [id], faults) ==
      Served(reports, due, faults) + ServedOf(reports[id], id, faults)
  {
    hide ServedOf;
    if due == [] {
      assert due + [id] == [id];
    } else {
      ServedSnoc(reports, due[1..], faults, id);
      assert (due + [id])[1..] == due[1..] + [id];
    }
  }

  /** What the sweep leaves of one due row. */
  ghost predicate Swept(before: Report, after: Report, now: int, served: bool)
    requires IsDue(before, now)
  {
    if served then
      && Parse(before.parts).Ok? && after.nextRunAt.Some?
      && after == before.(lastRunAt := Some(now), nextRunAt := after.nextRunAt)
      && CaughtUp(Parse(before.parts).value, before.nextRunAt.value, now, after.nextRunAt.value)
    else
      after == before
  }

  /** The table once the sweep has handled the first `done` of its rows: those are swept, all others untouched. */
  ghost predicate AfterSweep(
    before: map<Id, Report>, after: map<Id, Report>, now: int, batch: nat, due: seq<Id>, faults: set<Id>, done: nat)
    requires IsDueBatch(before, now, batch, due) && done <= |due|
  {
    && after.Keys == before.Keys
    && (forall id :: id in before && id !in due ==> after[id] == before[id])
    && (forall j :: done <= j < |due| ==> after[due[j]] == before[due[j]])
    && forall j :: 0 <= j < done ==>
         Swept(before[due[j]], after[due[j]], now, due[j] !in faults && Parse(before[due[j]].parts).Ok?)
  }

  lemma AfterSweepStep(
    before: map<Id, Report>, mid: map<Id, Report>, after: map<Id, Report>,
    now: int, batch: nat, due: seq<Id>, faults: set<Id>, i: nat)
    requires IsDueBatch(before, now, batch, due) && i < |due|
    requires AfterSweep(before, mid, now, batch, due, faults, i)
    requires after.Keys == mid.Keys && forall id :: id in mid && id != due[i] ==> after[id] == mid[id]
    requires Swept(mid[due[i]], after[due[i]], now, due[i] !in faults && Parse(mid[due[i]].parts).Ok?)
    ensures AfterSweep(before, after, now, batch, due, faults, i + 1)
  {
    hide Parse, Swept;
    assert forall j | 0 <= j < |due| && j != i :: due[j] != due[i];
  }

  datatype Store = Store(reports: map<Id, Report>, exports: seq<Id>, runs: seq<Id>)

  /** The store once the sweep has handled the first n of its rows: one export and one run for each it served. */
  ghost predicate SweptUpTo(before: Store, after: Store, now: int, batch: nat, due: seq<Id>, faults: set<Id>, n: nat)
    requires IsDueBatch(before.reports, now, batch, due) && n <= |due|
  {
    && AfterSweep(before.reports, after.reports, now, batch, due, faults, n)
    && Recorded(before, after, due[..n], faults)
  }

  /** One export and one run for each of the rows that was served. */
  predicate Recorded(before: Store, after: Store, done: seq<Id>, faults: set<Id>) {
    && (forall id :: id in done ==> id in before.reports)
    && after.exports == before.exports + Served(before.reports, done, faults)
    && after.runs == before.runs + Served(before.reports, done, faults)
  }

  lemma OneMoreRecorded(before: Store, mid: Store, after: Store, done: seq<Id>, id: Id, faults: set<Id>)
    requires Recorded(before, mid, done, faults) && id in before.reports
    requires after.exports == mid.exports + ServedOf(before.reports[id], id, faults)
    requires after.runs == mid.runs + ServedOf(before.reports[id], id, faults)
    ensures Recorded(before, after, done + [id], faults)
  {
    hide ServedOf, Served;
    ServedSnoc(before.reports, done, faults, id);
  }

  lemma NothingSwept(before: Store, now: int, batch: nat, due: seq<Id>, faults: set<Id>)
    requires IsDueBatch(before.reports, now, batch, due)
    ensures SweptUpTo(before, before, now, batch, due, faults, 0)
  {
  }

  lemma NextIsDue(before: Store, mid: Store, now: int, batch: nat, due: seq<Id>, faults: set<Id>, i: nat)
    requires IsDueBatch(before.reports, now, batch, due) && i < |due|
    requires SweptUpTo(before, mid, now, batch, due, faults, i)
    ensures due[i] in mid.reports && IsDue(mid.reports[due[i]], now)
    ensures due[i] in before.reports && mid.reports[due[i]] == before.reports[due[i]]
  {
  }

  lemma SweepStep(
    before: Store, mid: Store, after: Store, now: int, batch: nat, due: seq<Id>, faults: set<Id>, i: nat)
    requires IsDueBatch(before.reports, now, batch, due) && i < |due|
    requires SweptUpTo(before, mid, now, batch, due, faults, i)
    requires due[i] in mid.reports && IsDue(mid.reports[due[i]], now)
    requires ServedTo(mid, after, due[i], now, due[i] in faults)
    ensures SweptUpTo(before, after, now, batch, due, faults, i + 1)
  {
    hide Parse, Swept, IsDueBatch, AfterSweep, Recorded, IsDue;
    NextIsDue(before, mid, now, batch, due, faults, i);
    AfterSweepStep(before.reports, mid.reports, after.reports, now, batch, due, faults, i);
    OneMoreRecorded(before, mid, after, due[..i], due[i], faults);
    assert due[..i + 1] == due[..i] + [due[i]];
  }

  /** One iteration: the transaction that records the run and moves the report on, or nothing. */
  ghost predicate ServedTo(mid: Store, after: Store, id: Id, now: int, fault: bool)
    requires id in mid.reports && IsDue(mid.reports[id], now)
  {
    var served := !fault && Parse(mid.reports[id].parts).Ok?;
    && after.reports.Keys == mid.reports.Keys
    && (forall k :: k in mid.reports && k != id ==> after.reports[k] == mid.reports[k])
    && Swept(mid.reports[id], after.reports[id], now, served)
    && after.exports == mid.exports + (if served then [id] else [])
    && after.runs == mid.runs + (if served then [id] else [])
  }

  class ReportStore {
    var reports: map<Id, Report>
    var exports: seq<Id>  // one PENDING export per entry, naming the report it serves
    var runs: seq<Id>     // the ReportRun rows beside them

    constructor (reports: map<Id, Report>)
      ensures this.reports == reports && exports == [] && runs == []
    {
      this.reports, exports, runs := reports, [], [];
    }

    ghost function Contents(): Store
      reads this
    {
      Store(reports, exports, runs)
    }

    method Serve(id: Id, now: int, fault: bool)
      requires id in reports && IsDue(reports[id], now)
      modifies this
      ensures ServedTo(old(Contents()), Contents(), id, now, fault)
    {
      var row := reports[id];
      var next := CatchUp(row.parts, row.nextRunAt.value, now);
      if next.Ok? && !fault {
        exports := exports + [id];
        runs := runs + [id];
        reports := reports[id := row.(lastRunAt := Some(now), nextRunAt := Some(next.value))];
      }
    }

    /**
     One sweep over the rows the query returned.  `faults` are the rows whose
     transaction the database aborts; they, like rows whose expression does
     not parse, are logged, left as they were and still counted.
     */
    method ProcessOnce(due: seq<Id>, now: int, batch: nat, faults: set<Id>) returns (count: nat)
      requires IsDueBatch(reports, now, batch, due)
      modifies this
      ensures count == |due|
      ensures IsDueBatch(old(reports), now, batch, due)
      ensures SweptUpTo(old(Contents()), Contents(), now, batch, due, faults, |due|)
    {
      ghost var before := Contents();
      NothingSwept(before, now, batch, due, faults);
      hide IsDueBatch, SweptUpTo, Swept, IsDue, Parse;
      for i := 0 to |due|
        invariant SweptUpTo(before, Contents(), now, batch, due, faults, i)
      {
        ghost var mid := Contents();
        NextIsDue(before, mid, now, batch, due, faults, i);
        Serve(due[i], now, due[i] in faults);
        SweepStep(before, mid, Contents(), now, batch, due, faults, i);
      }
      count := |due|;
    }
  }

  /** After a sweep exactly the due reports that it did not serve are due at the same instant. */
  lemma StillDueAfterSweep(
    before: Store, after: Store, now: int, batch: nat, due: seq<Id>, faults: set<Id>, id: Id)
    requires IsDueBatch(before.reports, now, batch, due) && SweptUpTo(before, after, now, batch, due, faults, |due|)
    requires id in before.reports
    ensures id in after.reports
    ensures IsDue(after.reports[id], now) <==>
      IsDue(before.reports[id], now) && !(id in due && id !in faults && Parse(before.reports[id].parts).Ok?)
  {
    hide Parse, CaughtUp;
    if id in due {
      var j :| 0 <= j < |due| && due[j] == id;
      assert Swept(before.reports[due[j]], after.reports[due[j]], now,
                   due[j] !in faults && Parse(before.reports[due[j]].parts).Ok?);
      SweptIsLater(before.reports[id], after.reports[id], now, id !in faults && Parse(before.reports[id].parts).Ok?);
    }
  }

  /**
   What a sweep leaves of any report: served, it ran now and is next due after
   now, where catching up from its old due time leads, with one more export and
   one more run; otherwise nothing of it changes.
   */
  lemma WhatASweepLeaves(
    before: Store, after: Store, now: int, batch: nat, due: seq<Id>, faults: set<Id>, id: Id)
    requires IsDueBatch(before.reports, now, batch, due) && SweptUpTo(before, after, now, batch, due, faults, |due|)
    requires id in before.reports
    ensures var r, served := before.reports[id], id in due && id !in faults && Parse(before.reports[id].parts).Ok?;
      && id in after.reports && after.reports[id].parts == r.parts && after.reports[id].isActive == r.isActive
      && (served ==>
           && after.reports[id].lastRunAt == Some(now)
           && r.nextRunAt.Some? && after.reports[id].nextRunAt.Some? && now < after.reports[id].nextRunAt.value
           && CaughtUp(Parse(r.parts).value, r.nextRunAt.value, now, after.reports[id].nextRunAt.value))
      && (!served ==> after.reports[id] == r)
      && multiset(after.exports)[id] == multiset(before.exports)[id] + (if served then 1 else 0)
      && multiset(after.runs)[id] == multiset(before.runs)[id] + (if served then 1 else 0)
  {
    hide Parse, CaughtUp, IsDue;
    if id in due {
      var j :| 0 <= j < |due| && due[j] == id;
      assert Swept(before.reports[due[j]], after.reports[due[j]], now,
                   due[j] !in faults && Parse(before.reports[due[j]].parts).Ok?);
      SweptIsLater(before.reports[id], after.reports[id], now, id !in faults && Parse(before.reports[id].parts).Ok?);
    }
    assert due[..|due|] == due;
    ServedOnce(before.reports, due, faults, id);
  }

  lemma SweptIsLater(before: Report, after: Report, now: int, served: bool)
    requires IsDue(before, now) && Swept(before, after, now, served)
    ensures served ==>
      && before.nextRunAt.Some? && after.nextRunAt.Some? && now < after.nextRunAt.value && Parse(before.parts).Ok?
      && CaughtUp(Parse(before.parts).value, before.nextRunAt.value, now, after.nextRunAt.value)
    ensures !served ==> after == before
  {
    hide Parse;
  }

  lemma {:induction false} ServedOnce(reports: map<Id, Report>, due: seq<Id>, faults: set<Id>, id: Id)
    requires forall i :: i in due ==> i in reports
    requires forall i, j :: 0 <= i < j < |due| ==> due[i] != due[j]
    ensures multiset(Served(reports, due, faults))[id] ==
      if id in due && id !in faults && Parse(reports[id].parts).Ok? then 1 else 0
  {
    hide Parse;
    if due != [] {
      ServedOnce(reports, due[1..], faults, id);
      assert id in due <==> id == due[0] || id in due[1..];
      assert due[0] !in due[1..];
    }
  }

  /**
   One run for a served report however many of its slots the downtime held; so
   a sweep loses none of them if and only if the first advance from the old due
   time is past now.
   */
  lemma OneRunPerServedReport(
    before: Store, after: Store, now: int, batch: nat, due: seq<Id>, faults: set<Id>, j: nat, first: int)
    requires IsDueBatch(before.reports, now, batch, due) && SweptUpTo(before, after, now, batch, due, faults, |due|)
    requires j < |due| && due[j] !in faults && Parse(before.reports[due[j]].parts).Ok?
    requires Advanced(Parse(before.reports[due[j]].parts).value, before.reports[due[j]].nextRunAt.value, first)
    ensures multiset(after.runs)[due[j]] == multiset(before.runs)[due[j]] + 1
    ensures due[j] in after.reports && !IsDue(after.reports[due[j]], now)
    ensures var s, prev := Parse(before.reports[due[j]].parts).value, before.reports[due[j]].nextRunAt.value;
      (s.AtTime? ==> !Remapped(prev)) ==> (MissedSlots(s, prev, now) == {} <==> now < first)
  {
    StillDueAfterSweep(before, after, now, batch, due, faults, due[j]);
    hide MissedSlots, Advanced, Parse, Swept;
    assert due[..|due|] == due;
    ServedOnce(before.reports, due, faults, due[j]);
    WhenNoSlotIsLost(Parse(before.reports[due[j]].parts).value, before.reports[due[j]].nextRunAt.value, now, first);
  }
}
