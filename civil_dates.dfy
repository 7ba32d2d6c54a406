/** Calendar arithmetic behind JavaScript's local-time `Date`, as the calendar page uses it:
    `new Date(year, month, day)` with out-of-range months and days rolled over,
    `getDate()`, `getDay()`, and the conversion between instants and calendar dates.
    Dates follow the proleptic Gregorian calendar; months are numbered from 0 as `getMonth()` does. */
module CivilDates {

  /** What `getFullYear()`, `getMonth()` and `getDate()` report. */
  datatype Date = Date(year: int, month: int, day: int)

  predicate IsLeapYear(y: int) {
    y % 4 == 0 && (y % 100 != 0 || y % 400 == 0)
  }

  /** Number of days of month `m` (0 = January) of year `y`. */
  function MonthLength(y: int, m: int): (n: int)
    requires 0 <= m < 12
    ensures 28 <= n <= 31
    ensures n == 29 <==> m == 1 && IsLeapYear(y)
  {
    if m == 1 then (if IsLeapYear(y) then 29 else 28)
    else if m == 3 || m == 5 || m == 8 || m == 10 then 30
    else 31
  }

  predicate Valid(d: Date) {
    0 <= d.month < 12 && 1 <= d.day <= MonthLength(d.year, d.month)
  }

  /** Months are also counted by a single index, 12 * year + month, so that
      "the month before" and "the month after" are k - 1 and k + 1. */
  function MonthIndex(y: int, m: int): int { 12 * y + m }
  function YearOf(k: int): int { k / 12 }
  function MonthOf(k: int): (m: int)
    ensures 0 <= m < 12
  {
    k % 12
  }
  function LengthAt(k: int): int { MonthLength(YearOf(k), MonthOf(k)) }

  lemma MonthIndexParts(y: int, m: int)
    requires 0 <= m < 12
    ensures YearOf(MonthIndex(y, m)) == y && MonthOf(MonthIndex(y, m)) == m
  {
  }

  lemma MonthIndexOfParts(k: int)
    ensures MonthIndex(YearOf(k), MonthOf(k)) == k
  {
  }

  /** The month index after `k`: the next month of the same year, or January of the next. */
  lemma MonthStep(k: int)
    ensures MonthOf(k) < 11 ==> YearOf(k + 1) == YearOf(k) && MonthOf(k + 1) == MonthOf(k) + 1
    ensures MonthOf(k) == 11 ==> YearOf(k + 1) == YearOf(k) + 1 && MonthOf(k + 1) == 0
  {
    var q, r := YearOf(k), MonthOf(k);
    MonthIndexOfParts(k);
    if r < 11 {
      MonthIndexParts(q, r + 1);
    } else {
      MonthIndexParts(q + 1, 0);
    }
  }

  /** Days from 1 January of year 1 (month index 12) to the first day of the month with index `k`,
      counted month by month. */
  function FirstDayOf(k: int): int
    decreases if k > 12 then k - 12 else 12 - k
  {
    if k == 12 then 0
    else if k > 12 then FirstDayOf(k - 1) + LengthAt(k - 1)
    else FirstDayOf(k + 1) - LengthAt(k)
  }

  /** Days since 1 January of year 1; `d` may lie outside the month. */
  function DayNumber(y: int, m: int, d: int): int
  {
    FirstDayOf(MonthIndex(y, m)) + d - 1
  }

  function DayNumberOf(d: Date): int
  {
    DayNumber(d.year, d.month, d.day)
  }

  /** The month after `k` starts exactly `LengthAt(k)` days after month `k` does. */
  lemma NextMonthStart(k: int)
    ensures FirstDayOf(k + 1) == FirstDayOf(k) + LengthAt(k)
  {
  }

  /** Months further on start later. */
  lemma {:induction false} FirstDayMonotone(j: int, k: int)
    requires j < k
    ensures FirstDayOf(j) + LengthAt(j) <= FirstDayOf(k)
    decreases k - j
  {
    NextMonthStart(j);
    if j + 1 < k {
      FirstDayMonotone(j + 1, k);
    }
  }

  /** Leap years among the years 1..n (the same formula counts backwards for n < 1). */
  function LeapYearsThrough(n: int): int { n / 4 - n / 100 + n / 400 }

  lemma StepDown(y: int, k: int)
    requires k == 4 || k == 100 || k == 400
    ensures y / k - (y - 1) / k == if y % k == 0 then 1 else 0
  {
  }

  /** The leap-year count grows by one exactly at a leap year. */
  lemma LeapCountStep(y: int)
    ensures LeapYearsThrough(y) - LeapYearsThrough(y - 1) == if IsLeapYear(y) then 1 else 0
  {
    var a, b, c := y / 4 - (y - 1) / 4, y / 100 - (y - 1) / 100, y / 400 - (y - 1) / 400;
    StepDown(y, 4);
    StepDown(y, 100);
    StepDown(y, 400);
    assert LeapYearsThrough(y) - LeapYearsThrough(y - 1) == a - b + c;
    DivisorsOf400(y);
  }

  /** Multiples of 400 are multiples of 100, and multiples of 100 are multiples of 4. */
  lemma DivisorsOf400(y: int)
    ensures y % 400 == 0 ==> y % 100 == 0
    ensures y % 100 == 0 ==> y % 4 == 0
  {
    if y % 400 == 0 {
      MultipleOf100(y / 400 * 4);
      assert y == 100 * (y / 400 * 4);
    }
    if y % 100 == 0 {
      MultipleOf4(y / 100 * 25);
      assert y == 4 * (y / 100 * 25);
    }
  }

  lemma MultipleOf100(q: int)
    ensures (100 * q) % 100 == 0
  {
  }

  lemma MultipleOf4(q: int)
    ensures (4 * q) % 4 == 0
  {
  }

  /** Days of year `y` before month `m` (0 <= m <= 12). */
  function DaysBeforeMonth(y: int, m: int): int
    requires 0 <= m <= 12
  {
    [0, 31, 59, 90, 120, 151, 181, 212, 243, 273, 304, 334, 365][m]
      + (if m >= 2 && IsLeapYear(y) then 1 else 0)
  }

  lemma DaysBeforeMonthStep(y: int, m: int)
    requires 1 <= m <= 12
    ensures DaysBeforeMonth(y, m) == DaysBeforeMonth(y, m - 1) + MonthLength(y, m - 1)
  {
  }

  /** Month `m` of year `y` starts `DaysBeforeMonth(y, m)` days after 1 January. */
  lemma {:induction false} MonthsIntoYear(y: int, m: int)
    requires 0 <= m <= 12
    ensures FirstDayOf(MonthIndex(y, 0) + m) == FirstDayOf(MonthIndex(y, 0)) + DaysBeforeMonth(y, m)
  {
    if m > 0 {
      var k := MonthIndex(y, 0) + m - 1;
      MonthsIntoYear(y, m - 1);
      NextMonthStart(k);
      MonthIndexParts(y, m - 1);
      assert k == MonthIndex(y, m - 1);
      assert LengthAt(k) == MonthLength(y, m - 1);
      DaysBeforeMonthStep(y, m);
    }
  }

  /** The twelve months of year `y` add up to 366 days in a leap year and 365 otherwise. */
  lemma YearLength(y: int)
    ensures FirstDayOf(MonthIndex(y + 1, 0)) == FirstDayOf(MonthIndex(y, 0)) + if IsLeapYear(y) then 366 else 365
  {
    MonthsIntoYear(y, 12);
  }

  /** The usual closed form: 365 days per year plus one per leap year before `y`. */
  lemma {:induction false} FirstDayOfYear(y: int)
    ensures FirstDayOf(MonthIndex(y, 0)) == 365 * (y - 1) + LeapYearsThrough(y - 1)
    decreases if y > 1 then y - 1 else 1 - y
  {
    if y > 1 {
      FirstDayOfYear(y - 1);
      YearLength(y - 1);
      LeapCountStep(y - 1);
    } else if y < 1 {
      FirstDayOfYear(y + 1);
      YearLength(y);
      LeapCountStep(y);
    }
  }

  /** `new Date(year, month, day)` for the month with index `k`: a day below 1 or past the
      end of the month moves into the months before or after. The result is the valid date
      lying `d - 1` days after the first of month `k`. */
  function Normalize(k: int, d: int): (r: Date)
    ensures Valid(r)
    ensures DayNumberOf(r) == FirstDayOf(k) + d - 1
    decreases if d < 1 then 1 - d else 0, d
  {
    if d < 1 then
      NextMonthStart(k - 1);
      Normalize(k - 1, d + LengthAt(k - 1))
    else if d > LengthAt(k) then
      NextMonthStart(k);
      Normalize(k + 1, d - LengthAt(k))
    else
      Date(YearOf(k), MonthOf(k), d)
  }

  /** `new Date(y, m, d)` in local time. */
  function MakeDate(y: int, m: int, d: int): Date
  {
    Normalize(MonthIndex(y, m), d)
  }

  /** Day 0 of a month is the last day of the month before. */
  lemma DayZero(k: int)
    ensures Normalize(k, 0) == Date(YearOf(k - 1), MonthOf(k - 1), LengthAt(k - 1))
  {
    NextMonthStart(k - 1);
    assert Normalize(k - 1, LengthAt(k - 1)) == Date(YearOf(k - 1), MonthOf(k - 1), LengthAt(k - 1));
  }

  /** A day inside its month is left as it is; the month index only carries the year over. */
  lemma MakeDateInMonth(y: int, m: int, d: int)
    requires 1 <= d <= LengthAt(MonthIndex(y, m))
    ensures MakeDate(y, m, d) == Date(YearOf(MonthIndex(y, m)), MonthOf(MonthIndex(y, m)), d)
  {
  }

  /** Two valid dates with the same day number are the same date. */
  lemma DayNumberInjective(a: Date, b: Date)
    requires Valid(a) && Valid(b) && DayNumberOf(a) == DayNumberOf(b)
    ensures a == b
  {
    var ka, kb := MonthIndex(a.year, a.month), MonthIndex(b.year, b.month);
    MonthIndexParts(a.year, a.month);
    MonthIndexParts(b.year, b.month);
    if ka < kb {
      FirstDayMonotone(ka, kb);
      assert false;
    } else if kb < ka {
      FirstDayMonotone(kb, ka);
      assert false;
    }
  }

  /** The date that is day number `n`. */
  function FromDayNumber(n: int): (r: Date)
    ensures Valid(r) && DayNumberOf(r) == n
  {
    Normalize(MonthIndex(1, 0), n + 1)
  }

  /** Day numbers and valid dates are in one-to-one correspondence. */
  lemma FromDayNumberOf(d: Date)
    requires Valid(d)
    ensures FromDayNumber(DayNumberOf(d)) == d
  {
    DayNumberInjective(FromDayNumber(DayNumberOf(d)), d);
  }

  /** `getDay()`: 0 = Sunday .. 6 = Saturday; day number 0 (1 January of year 1) was a Monday. */
  function Weekday(n: int): (w: int)
    ensures 0 <= w < 7
  {
    (n + 1) % 7
  }

  /** The weekday `m` days later. */
  lemma WeekdayShift(n: int, m: nat)
    ensures Weekday(n + m) == (Weekday(n) + m) % 7
  {
    var q, r := (n + 1) / 7, (n + 1) % 7;
    assert n + 1 + m == 7 * q + (r + m);
    assert (7 * q + (r + m)) % 7 == (r + m) % 7;
  }

  const MsPerDay: int := 86400000
  const MsPerMinute: int := 60000

  /** Day number of 1 January 1970, the origin of JavaScript time values. */
  const UnixEpochDay: int := 719162

  lemma UnixEpochIsThursday()
    ensures DayNumber(1970, 0, 1) == UnixEpochDay && Weekday(UnixEpochDay) == 4
  {
    FirstDayOfYear(1970);
    assert 1969 / 4 == 492 && 1969 / 100 == 19 && 1969 / 400 == 4;
    assert LeapYearsThrough(1969) == 477;
    assert FirstDayOf(MonthIndex(1970, 0)) == 719162;
    assert (719162 + 1) % 7 == 4;
  }

  /** The local calendar date of the instant `ms` (milliseconds since the Unix epoch)
      where the local time is `offsetMinutes` behind UTC (`getTimezoneOffset()`). */
  function LocalDateOf(ms: int, offsetMinutes: int): Date
  {
    FromDayNumber(UnixEpochDay + (ms - offsetMinutes * MsPerMinute) / MsPerDay)
  }

  /** Milliseconds since the Unix epoch of UTC midnight at the start of `d`. */
  function UtcMidnight(d: Date): int
  {
    (DayNumberOf(d) - UnixEpochDay) * MsPerDay
  }

  /** Any instant during the local day of `d` reads back as `d`. */
  lemma LocalDateDuringDay(d: Date, ms: int, offsetMinutes: int)
    requires Valid(d)
    requires 0 <= ms - offsetMinutes * MsPerMinute - UtcMidnight(d) < MsPerDay
    ensures LocalDateOf(ms, offsetMinutes) == d
  {
    var q := DayNumberOf(d) - UnixEpochDay;
    var r := ms - offsetMinutes * MsPerMinute - UtcMidnight(d);
    assert ms - offsetMinutes * MsPerMinute == q * MsPerDay + r;
    assert (q * MsPerDay + r) / MsPerDay == q;
    FromDayNumberOf(d);
  }
}
