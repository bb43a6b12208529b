/** The proleptic Gregorian calendar, far enough for stamps: days and seconds counted from the
    start of the year -1, which an offset can reach from the year 0. */
module Calendar {

  predicate Leap(y: int) { y % 4 == 0 && (y % 100 != 0 || y % 400 == 0) }

  function MonthDays(y: int, m: int): (d: nat)
    ensures 28 <= d <= 31
  {
    if m == 2 then (if Leap(y) then 29 else 28)
    else if m == 4 || m == 6 || m == 9 || m == 11 then 30 else 31
  }

  function BeforeMonth(y: int, m: nat): (d: nat)
    requires 1 <= m <= 13
    ensures m == 13 ==> d == YearDays(y)
    ensures m < 13 ==> d + MonthDays(y, m) <= YearDays(y)
  {
    var feb := if Leap(y) then 29 else 28;
    match m
    case 1 => 0
    case 2 => 31
    case 3 => 31 + feb
    case 4 => 62 + feb
    case 5 => 92 + feb
    case 6 => 123 + feb
    case 7 => 153 + feb
    case 8 => 184 + feb
    case 9 => 215 + feb
    case 10 => 245 + feb
    case 11 => 276 + feb
    case 12 => 306 + feb
    case 13 => 337 + feb
  }

  function YearDays(y: int): nat { if Leap(y) then 366 else 365 }

  function BeforeYear(y: int): nat
    requires y >= -1
  {
    if y == -1 then 0 else BeforeYear(y - 1) + YearDays(y - 1)
  }

  datatype Date = Date(year: int, month: nat, day: nat)

  predicate Real(d: Date) {
    d.year >= -1 && 1 <= d.month <= 12 && 1 <= d.day <= MonthDays(d.year, d.month)
  }

  function DayNumber(d: Date): nat
    requires Real(d)
  {
    BeforeYear(d.year) + BeforeMonth(d.year, d.month) + d.day - 1
  }

  predicate Earlier(a: Date, b: Date) {
    a.year < b.year || (a.year == b.year && (a.month < b.month || (a.month == b.month && a.day < b.day)))
  }

  lemma {:induction false} YearsAdd(a: int, b: int)
    requires -1 <= a < b
    ensures BeforeYear(a) + YearDays(a) <= BeforeYear(b)
    decreases b - a
  {
    if a < b - 1 { YearsAdd(a, b - 1); }
  }

  lemma {:induction false} MonthsAdd(y: int, a: nat, b: nat)
    requires 1 <= a < b <= 12
    ensures BeforeMonth(y, a) + MonthDays(y, a) <= BeforeMonth(y, b)
    decreases b - a
  {
  }

  lemma {:induction false} MonthIsNext(y: int, m: nat)
    requires 1 <= m <= 12
    ensures BeforeMonth(y, m + 1) == BeforeMonth(y, m) + MonthDays(y, m)
  {
  }

  lemma {:induction false} EarlierIsLess(a: Date, b: Date)
    requires Real(a) && Real(b) && Earlier(a, b)
    ensures DayNumber(a) < DayNumber(b)
  {
    hide Leap, MonthDays;
    if a.year < b.year {
      YearsAdd(a.year, b.year);
    } else if a.month < b.month {
      MonthsAdd(a.year, a.month, b.month);
    }
  }

  // ---- from a day number back to a date ----

  function YearOf(n: nat, y: int): (r: int)
    requires y >= -1 && BeforeYear(y) <= n
    ensures y <= r && BeforeYear(r) <= n < BeforeYear(r) + YearDays(r)
    decreases n - BeforeYear(y)
  {
    if n < BeforeYear(y) + YearDays(y) then y else YearOf(n, y + 1)
  }

  function MonthOf(k: nat, y: int, m: nat): (r: nat)
    requires 1 <= m <= 12 && BeforeMonth(y, m) <= k < YearDays(y)
    ensures m <= r <= 12 && BeforeMonth(y, r) <= k < BeforeMonth(y, r) + MonthDays(y, r)
    decreases 12 - m
  {
    MonthIsNext(y, m);
    if k < BeforeMonth(y, m + 1) then m else MonthOf(k, y, m + 1)
  }

  function ToDate(n: nat): (d: Date)
    ensures Real(d) && DayNumber(d) == n
  {
    var y := YearOf(n, -1);
    var k := n - BeforeYear(y);
    assert BeforeMonth(y, 1) == 0;
    var m := MonthOf(k, y, 1);
    Date(y, m, k - BeforeMonth(y, m) + 1)
  }

  lemma {:induction false} DateOrder(a: Date, b: Date)
    requires Real(a) && Real(b)
    ensures DayNumber(a) < DayNumber(b) <==> Earlier(a, b)
    ensures DayNumber(a) == DayNumber(b) <==> a == b
  {
    hide DayNumber, Real;
    if Earlier(a, b) { EarlierIsLess(a, b); }
    if Earlier(b, a) { EarlierIsLess(b, a); }
  }

  /** The day after, as a calendar has it. */
  predicate IsNextDay(a: Date, b: Date) {
    var last := if a.month == 2 then (if a.year % 400 == 0 || (a.year % 4 == 0 && a.year % 100 != 0) then 29 else 28)
                else if a.month in {4, 6, 9, 11} then 30 else 31;
    if a.day < last then b == Date(a.year, a.month, a.day + 1)
    else if a.month < 12 then b == Date(a.year, a.month + 1, 1)
    else b == Date(a.year + 1, 1, 1)
  }

  /** Days are numbered without a gap, in the Gregorian calendar. */
  lemma {:induction false} DaysFollow(a: Date, b: Date)
    requires Real(a) && Real(b)
    ensures DayNumber(b) == DayNumber(a) + 1 <==> IsNextDay(a, b)
  {
    hide DayNumber, Real, IsNextDay;
    var c := NextDay(a);
    DateOrder(b, c);
    OneNextDay(a, b, c);
  }

  lemma {:induction false} LastDay(y: int, m: nat)
    requires 1 <= m <= 12
    ensures MonthDays(y, m) == if m == 2 then (if y % 400 == 0 || (y % 4 == 0 && y % 100 != 0) then 29 else 28)
                               else if m in {4, 6, 9, 11} then 30 else 31
  {
  }

  lemma {:induction false} NextDay(a: Date) returns (c: Date)
    requires Real(a)
    ensures Real(c) && DayNumber(c) == DayNumber(a) + 1 && IsNextDay(a, c)
  {
    hide Leap, MonthDays, BeforeMonth, BeforeYear, YearDays;
    LastDay(a.year, a.month);
    MonthIsNext(a.year, a.month);
    FirstOfYear(a.year);
    if a.day < MonthDays(a.year, a.month) {
      c := Date(a.year, a.month, a.day + 1);
    } else if a.month < 12 {
      c := Date(a.year, a.month + 1, 1);
    } else {
      c := Date(a.year + 1, 1, 1);
    }
  }

  lemma {:induction false} FirstOfYear(y: int)
    requires y >= -1
    ensures BeforeYear(y + 1) == BeforeYear(y) + YearDays(y)
    ensures BeforeMonth(y + 1, 1) == 0 && BeforeMonth(y, 13) == YearDays(y)
  {
  }

  lemma {:induction false} OneNextDay(a: Date, b: Date, c: Date)
    requires IsNextDay(a, c)
    ensures IsNextDay(a, b) <==> b == c
  {
  }

  // ---- with the time of day ----

  datatype Clock = Clock(date: Date, hour: nat, minute: nat, second: nat)

  predicate Ticks(c: Clock) { Real(c.date) && c.hour < 24 && c.minute < 60 && c.second < 60 }

  function OfDay(c: Clock): nat { c.hour * 3600 + c.minute * 60 + c.second }

  /** Whole seconds since the start of the year -1. */
  function Seconds(c: Clock): nat
    requires Real(c.date)
  {
    DayNumber(c.date) * 86400 + OfDay(c)
  }

  predicate Sooner(a: Clock, b: Clock) {
    || Earlier(a.date, b.date)
    || (a.date == b.date
        && (a.hour < b.hour || (a.hour == b.hour
            && (a.minute < b.minute || (a.minute == b.minute && a.second < b.second)))))
  }

  /** Clock readings are ordered as the instants they name, and name different ones. */
  lemma {:induction false} ClockOrder(a: Clock, b: Clock)
    requires Ticks(a) && Ticks(b)
    ensures Seconds(a) < Seconds(b) <==> Sooner(a, b)
    ensures Seconds(a) == Seconds(b) <==> a == b
  {
    hide DayNumber, Real, Earlier;
    DateOrder(a.date, b.date);
    DateOrder(b.date, a.date);
  }

  /** The end of a day may be written 24:00:00. */
  predicate EndsDay(c: Clock) { Real(c.date) && c.hour == 24 && c.minute == 0 && c.second == 0 }

  /** A day's end and a reading of the clock: in order like any two readings, but that the end is
      the same instant as the midnight after it and still reads sooner. */
  lemma {:induction false} EndOfDayOrder(a: Clock, b: Clock)
    requires EndsDay(a) && Ticks(b)
    ensures Seconds(a) < Seconds(b) ==> Sooner(a, b) && !Sooner(b, a)
    ensures Seconds(b) < Seconds(a) ==> Sooner(b, a) && !Sooner(a, b)
    ensures Seconds(a) == Seconds(b) ==> Sooner(a, b) && !Sooner(b, a)
  {
    hide DayNumber, Real, Earlier;
    DateOrder(a.date, b.date);
    DateOrder(b.date, a.date);
  }

  lemma {:induction false} TwoDayEnds(a: Clock, b: Clock)
    requires EndsDay(a) && EndsDay(b)
    ensures Seconds(a) < Seconds(b) <==> Sooner(a, b)
    ensures Seconds(a) == Seconds(b) <==> a == b
  {
    hide DayNumber, Real, Earlier;
    DateOrder(a.date, b.date);
    DateOrder(b.date, a.date);
  }

  function ToClock(n: nat): Clock {
    var k := n % 86400;
    Clock(ToDate(n / 86400), k / 3600, k % 3600 / 60, k % 60)
  }

  lemma {:induction false} DaySplits(k: nat)
    requires k < 86400
    ensures k / 3600 < 24 && k % 3600 / 60 < 60 && (k / 3600) * 3600 + (k % 3600 / 60) * 60 + k % 60 == k
  {
  }

  lemma {:induction false} ClockOf(n: nat)
    ensures Ticks(ToClock(n)) && Seconds(ToClock(n)) == n
  {
    hide DayNumber, Real, ToDate;
    DaySplits(n % 86400);
  }

  /** Reading the clock and counting seconds are inverse. */
  lemma {:induction false} ClockRoundTrip(c: Clock)
    requires Ticks(c)
    ensures ToClock(Seconds(c)) == c
  {
    hide ToClock, DayNumber, Real;
    ClockOf(Seconds(c));
    ClockOrder(ToClock(Seconds(c)), c);
  }
}
