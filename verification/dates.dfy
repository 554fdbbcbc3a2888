/** Abstract calendar: an instant is a whole number of milliseconds since
    midnight, 1 January 1970, local time (a Thursday). The French locale
    starts its weeks on Monday. */
module Dates {

  type Instant = int

  const MsPerDay: int := 86400000

  /** Days since 1 January 1970 (negative before it). */
  function DayNumber(t: Instant): (d: int)
  {
    t / MsPerDay
  }

  /** Day of the week, Monday = 0 ... Sunday = 6; day 0 was a Thursday. */
  function Weekday(day: int): (w: int)
    ensures 0 <= w < 7
  {
    (day + 3) % 7
  }

  /** A later instant is never on an earlier day. */
  lemma DayNumberMonotone(t: Instant, u: Instant)
    requires t <= u
    ensures DayNumber(t) <= DayNumber(u)
  {
  }

  /** Moment's `startOf("week")`: midnight of the latest Monday not after `t`. */
  function WeekStart(t: Instant): (s: Instant)
    ensures s <= t < s + 7 * MsPerDay
    ensures s % MsPerDay == 0
    ensures Weekday(DayNumber(s)) == 0
  {
    var day := DayNumber(t);
    var monday := day - Weekday(day);
    assert (monday * MsPerDay) / MsPerDay == monday;
    monday * MsPerDay
  }

  /** A week start is its own week start. */
  lemma {:induction false} WeekStartIdempotent(t: Instant)
    ensures WeekStart(WeekStart(t)) == WeekStart(t)
  {
    var s := WeekStart(t);
    var day := DayNumber(s);
    assert day * MsPerDay == s;
    assert Weekday(day) == 0;
  }

  /** Two instants share a week start exactly when they fall in the same Monday-to-Sunday week. */
  lemma WeekStartSameWeek(t: Instant, u: Instant)
    requires WeekStart(t) <= u < WeekStart(t) + 7 * MsPerDay
    ensures WeekStart(u) == WeekStart(t)
  {
  }

  /** A month of the Gregorian calendar, the key moment formats as "MMMM YYYY". */
  datatype YearMonth = YearMonth(year: int, month: int)

  predicate ValidMonth(ym: YearMonth)
  {
    1 <= ym.month <= 12
  }

  /** Position of a month on the calendar: consecutive months get consecutive indices. */
  function MonthIndex(ym: YearMonth): (k: int)
  {
    12 * ym.year + ym.month - 1
  }

  /** Distinct months have distinct indices. */
  lemma MonthIndexInjective(a: YearMonth, b: YearMonth)
    requires ValidMonth(a) && ValidMonth(b) && MonthIndex(a) == MonthIndex(b)
    ensures a == b
  {
  }

  function NextMonth(ym: YearMonth): (n: YearMonth)
    requires ValidMonth(ym)
    ensures ValidMonth(n) && MonthIndex(n) == MonthIndex(ym) + 1
  {
    if ym.month == 12 then YearMonth(ym.year + 1, 1) else YearMonth(ym.year, ym.month + 1)
  }

  /** Leap years of the Gregorian calendar. */
  predicate IsLeap(y: int)
  {
    y % 4 == 0 && (y % 100 != 0 || y % 400 == 0)
  }

  function DaysInYear(y: int): (n: int)
  {
    if IsLeap(y) then 366 else 365
  }

  /** Day number of 1 January of year `y`, counted year by year from 1970. */
  function YearStart(y: int): (d: int)
    decreases if y < 1970 then 1970 - y else y - 1970
  {
    if y == 1970 then 0
    else if y > 1970 then YearStart(y - 1) + DaysInYear(y - 1)
    else YearStart(y + 1) - DaysInYear(y)
  }

  /** Consecutive years start a year's length apart. */
  lemma YearStartNext(y: int)
    ensures YearStart(y + 1) == YearStart(y) + DaysInYear(y)
  {
  }

  /** Later years start later, by at least 365 days a year. */
  lemma {:induction false} YearStartGrows(y1: int, y2: int)
    requires y1 <= y2
    ensures YearStart(y1) + 365 * (y2 - y1) <= YearStart(y2)
    decreases y2 - y1
  {
    if y1 < y2 {
      YearStartNext(y2 - 1);
      YearStartGrows(y1, y2 - 1);
    }
  }

  /** The latest year at or below `y` that starts no later than `day`. */
  function YearAtOrBelow(day: int, y: int): (r: int)
    ensures YearStart(r) <= day
    decreases if YearStart(y) > day then YearStart(y) - day else 0
  {
    if YearStart(y) <= day then y
    else
      YearStartNext(y - 1);
      YearAtOrBelow(day, y - 1)
  }

  /** From a year starting no later than `day`, the year that holds it. */
  function YearAtOrAbove(day: int, y: int): (r: int)
    requires YearStart(y) <= day
    ensures YearStart(r) <= day < YearStart(r + 1)
    decreases day - YearStart(y)
  {
    YearStartNext(y);
    if day < YearStart(y + 1) then y else YearAtOrAbove(day, y + 1)
  }

  /** The year holding a day, searched from an estimate. */
  function YearOf(day: int): (y: int)
    ensures YearStart(y) <= day < YearStart(y + 1)
  {
    YearAtOrAbove(day, YearAtOrBelow(day, 1970 + day / 366))
  }

  /** Days of year `y` before the first of month `m`. */
  function DaysBeforeMonth(y: int, m: int): (n: int)
    requires 1 <= m <= 12
  {
    var common := match m
      case 1 => 0   case 2 => 31  case 3 => 59  case 4 => 90
      case 5 => 120 case 6 => 151 case 7 => 181 case 8 => 212
      case 9 => 243 case 10 => 273 case 11 => 304 case _ => 334;
    common + (if m > 2 && IsLeap(y) then 1 else 0)
  }

  /** Day number of the first day of a month. */
  function FirstDay(ym: YearMonth): (d: int)
    requires ValidMonth(ym)
  {
    YearStart(ym.year) + DaysBeforeMonth(ym.year, ym.month)
  }

  /** The latest month at or below `m` that starts no later than day `doy` of year `y`. */
  function MonthAtOrBelow(y: int, doy: int, m: int): (r: int)
    requires 1 <= m <= 12 && 0 <= doy
    requires m < 12 ==> doy < DaysBeforeMonth(y, m + 1)
    ensures 1 <= r <= m
    ensures DaysBeforeMonth(y, r) <= doy
    ensures r < 12 ==> doy < DaysBeforeMonth(y, r + 1)
    decreases m
  {
    if DaysBeforeMonth(y, m) <= doy then m else MonthAtOrBelow(y, doy, m - 1)
  }

  /** Calendar month of a day number (proleptic Gregorian): the month whose
      first day is at or before the day and whose successor's first day is after it. */
  function MonthOf(day: int): (ym: YearMonth)
    ensures ValidMonth(ym)
    ensures FirstDay(ym) <= day < FirstDay(NextMonth(ym))
  {
    var y := YearOf(day);
    YearStartNext(y);
    YearMonth(y, MonthAtOrBelow(y, day - YearStart(y), 12))
  }

  /** Months start in calendar order. */
  lemma FirstDayOrdered(a: YearMonth, b: YearMonth)
    requires ValidMonth(a) && ValidMonth(b) && MonthIndex(a) <= MonthIndex(b)
    ensures FirstDay(a) <= FirstDay(b)
  {
    if a.year < b.year {
      YearStartNext(a.year);
      YearStartGrows(a.year + 1, b.year);
    }
  }

  /** Every day between the first of a month and the first of the next maps
      back to that month: a day lies in exactly one month. */
  lemma MonthOfDays(ym: YearMonth, day: int)
    requires ValidMonth(ym) && FirstDay(ym) <= day < FirstDay(NextMonth(ym))
    ensures MonthOf(day) == ym
  {
    var m := MonthOf(day);
    if MonthIndex(m) < MonthIndex(ym) {
      FirstDayOrdered(NextMonth(m), ym);
    } else if MonthIndex(ym) < MonthIndex(m) {
      FirstDayOrdered(NextMonth(ym), m);
    }
  }

  /** A later day is never in an earlier month. */
  lemma MonthOfMonotone(d1: int, d2: int)
    requires d1 <= d2
    ensures MonthIndex(MonthOf(d1)) <= MonthIndex(MonthOf(d2))
  {
    var m1, m2 := MonthOf(d1), MonthOf(d2);
    if MonthIndex(m2) < MonthIndex(m1) {
      FirstDayOrdered(NextMonth(m2), m1);
    }
  }

  /** Months have the Gregorian lengths: thirty days hath September, April,
      June and November; February has 29 days in leap years and 28 otherwise. */
  lemma MonthLength(ym: YearMonth)
    requires ValidMonth(ym)
    ensures var n := FirstDay(NextMonth(ym)) - FirstDay(ym);
      && (ym.month in {4, 6, 9, 11} ==> n == 30)
      && (ym.month == 2 ==> n == if IsLeap(ym.year) then 29 else 28)
      && (ym.month in {1, 3, 5, 7, 8, 10, 12} ==> n == 31)
  {
    YearStartNext(ym.year);
  }

  /** Noon on Wednesday 1 April 2020 and the Monday 30 March 2020 that starts its week. */
  const April1st2020Noon: Instant := 18353 * MsPerDay + 43200000
  const March30th2020: Instant := 18351 * MsPerDay

  lemma WeekReference()
    ensures DayNumber(April1st2020Noon) == 18353
    ensures Weekday(18353) == 2
    ensures WeekStart(April1st2020Noon) == March30th2020
  {
  }

  /** Leap years up to `y - 1`, counted from a fixed origin: only differences matter. */
  function LeapsBefore(y: int): (n: int)
  {
    (y - 1) / 4 - (y - 1) / 100 + (y - 1) / 400
  }

  /** The year-by-year count agrees with the closed form: 365 days a year
      plus one per leap year passed. */
  lemma {:induction false} YearStartClosedForm(y: int)
    requires y >= 1970
    ensures YearStart(y) == 365 * (y - 1970) + LeapsBefore(y) - LeapsBefore(1970)
    decreases y - 1970
  {
    if y > 1970 {
      YearStartClosedForm(y - 1);
      LeapsStep(y - 1);
    }
  }

  lemma LeapsStep(x: int)
    ensures LeapsBefore(x + 1) - LeapsBefore(x) == if IsLeap(x) then 1 else 0
  {
    DivStep(x, 4);
    DivStep(x, 100);
    DivStep(x, 400);
  }

  /** `x / k` goes up by one exactly at the multiples of `k`. */
  lemma DivStep(x: int, k: int)
    requires k == 4 || k == 100 || k == 400
    ensures x / k - (x - 1) / k == if x % k == 0 then 1 else 0
  {
    var q, r := (x - 1) / k, (x - 1) % k;
    assert x - 1 == k * q + r && 0 <= r < k;
    if r + 1 < k {
      assert x == k * q + (r + 1);
    } else {
      assert x == k * (q + 1);
    }
  }

  /** 2020 is a leap year starting 18262 days after 1 January 1970. */
  lemma Year2020()
    ensures YearStart(2020) == 18262 && IsLeap(2020)
  {
    YearStartClosedForm(2020);
    assert LeapsBefore(2020) == 504 - 20 + 5;
    assert LeapsBefore(1970) == 492 - 19 + 4;
  }

  lemma MonthReferenceApril(day: int)
    requires day == 18353
    ensures MonthOf(day) == YearMonth(2020, 4)
  {
    Year2020();
    assert FirstDay(YearMonth(2020, 4)) == 18353;
    MonthLength(YearMonth(2020, 4));
    MonthOfDays(YearMonth(2020, 4), day);
  }

  lemma MonthReferenceMarch(day: int)
    requires day == 18351
    ensures MonthOf(day) == YearMonth(2020, 3)
  {
    Year2020();
    assert FirstDay(YearMonth(2020, 3)) == 18322;
    MonthLength(YearMonth(2020, 3));
    MonthOfDays(YearMonth(2020, 3), day);
  }
}
