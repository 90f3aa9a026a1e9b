/** The proleptic Gregorian calendar on day numbers (day 0 is 1970-01-01, a Thursday),
    standing in for the date-fns helpers the pages call (`startOfMonth`, `endOfMonth`,
    `startOfWeek`, `endOfWeek`, `subMonths`, `format`). Time zones and daylight saving
    are not modelled: a day is 86 400 000 ms. */
module Calendar {
  import opened Common

  const MsPerDay: int := 86400000

  type Month = m: int | 1 <= m <= 12 witness 1

  /** Milliseconds into the current day. */
  type MsOfDay = t: int | 0 <= t < MsPerDay

  /** The clock: the current day and the time of day. */
  datatype Clock = Clock(today: int, ms: MsOfDay)

  /** The instant of a clock reading, in ms since the epoch. */
  function Instant(c: Clock): int {
    c.today * MsPerDay + c.ms
  }

  /** The instant of the local midnight that starts `day` (`parseISO("yyyy-MM-dd")`). */
  function Midnight(day: int): int {
    day * MsPerDay
  }

  predicate IsLeap(y: int) {
    (y % 4 == 0 && y % 100 != 0) || y % 400 == 0
  }

  function DaysInMonth(y: int, m: Month): (n: int)
    ensures 28 <= n <= 31
  {
    if m == 2 then (if IsLeap(y) then 29 else 28)
    else if m == 4 || m == 6 || m == 9 || m == 11 then 30
    else 31
  }

  function DaysBeforeMonth(y: int, m: Month): nat {
    [0, 31, 59, 90, 120, 151, 181, 212, 243, 273, 304, 334][m - 1]
      + (if m > 2 && IsLeap(y) then 1 else 0)
  }

  function YearDays(y: int): int {
    if IsLeap(y) then 366 else 365
  }

  /** The day number of 1 January of year `y`: years are laid end to end from 1970. */
  function YearStart(y: int): int
    decreases if y < 1970 then 1970 - y else y - 1970
  {
    if y == 1970 then 0
    else if y > 1970 then YearStart(y - 1) + YearDays(y - 1)
    else YearStart(y + 1) - YearDays(y)
  }

  /** A calendar month. */
  datatype YearMonth = YearMonth(year: int, month: Month)

  /** `startOfMonth`: the day number of the first of the month. */
  function MonthStart(ym: YearMonth): int {
    YearStart(ym.year) + DaysBeforeMonth(ym.year, ym.month)
  }

  /** `endOfMonth`: the day number of the last day of the month. */
  function MonthEnd(ym: YearMonth): int {
    MonthStart(ym) + DaysInMonth(ym.year, ym.month) - 1
  }

  /** `getMonth()` and `getFullYear()` of the day equal those of the month. */
  predicate InMonth(day: int, ym: YearMonth) {
    MonthStart(ym) <= day <= MonthEnd(ym)
  }

  /** `addMonths` / `subMonths` on the month of a date. */
  function ShiftMonths(ym: YearMonth, k: int): YearMonth {
    var index := ym.year * 12 + (ym.month - 1) + k;
    YearMonth(index / 12, index % 12 + 1)
  }

  /** Months follow each other without gap or overlap. */
  lemma NextMonthStart(ym: YearMonth)
    ensures MonthStart(ShiftMonths(ym, 1)) == MonthEnd(ym) + 1
  {
    var y := ym.year;
    if ym.month == 12 {
      NextYearMonth(y);
      YearLength(y);
    } else {
      SameYearMonth(y, ym.month);
      MonthAfter(y, ym.month);
    }
  }

  lemma NextYearMonth(y: int)
    ensures ShiftMonths(YearMonth(y, 12), 1) == YearMonth(y + 1, 1)
  {
    assert y * 12 + 12 == (y + 1) * 12;
  }

  lemma SameYearMonth(y: int, m: Month)
    requires m < 12
    ensures ShiftMonths(YearMonth(y, m), 1) == YearMonth(y, m + 1)
  {
    assert y * 12 + m == y * 12 + m;
  }

  lemma YearLength(y: int)
    ensures YearStart(y + 1) == YearStart(y) + 365 + (if IsLeap(y) then 1 else 0)
  {
  }

  lemma MonthAfter(y: int, m: Month)
    requires m < 12
    ensures DaysBeforeMonth(y, m + 1) == DaysBeforeMonth(y, m) + DaysInMonth(y, m)
  {
  }

  lemma ShiftMonthsAdd(ym: YearMonth, a: int, b: int)
    ensures ShiftMonths(ShiftMonths(ym, a), b) == ShiftMonths(ym, a + b)
  {
  }

  lemma ShiftZero(ym: YearMonth)
    ensures ShiftMonths(ym, 0) == ym
  {
    var index := ym.year * 12 + (ym.month - 1);
    assert 0 <= ym.month - 1 < 12;
    assert index / 12 == ym.year && index % 12 == ym.month - 1;
  }

  /** The month before January is the previous year's December. */
  lemma PrevMonth(ym: YearMonth)
    ensures ShiftMonths(ym, -1)
      == if ym.month == 1 then YearMonth(ym.year - 1, 12) else YearMonth(ym.year, ym.month - 1)
  {
    if ym.month == 1 {
      assert ym.year * 12 + (ym.month - 1) - 1 == (ym.year - 1) * 12 + 11;
    } else {
      assert ym.year * 12 + (ym.month - 1) - 1 == ym.year * 12 + (ym.month - 2);
    }
  }

  /** A month starts the day after the previous month ends. */
  lemma PrevMonthStart(ym: YearMonth)
    ensures MonthStart(ym) == MonthEnd(ShiftMonths(ym, -1)) + 1
  {
    var p := ShiftMonths(ym, -1);
    NextMonthStart(p);
    ShiftMonthsAdd(ym, -1, 1);
    ShiftZero(ym);
  }

  /** `getDay()`: 0 is Sunday, 6 is Saturday. */
  function Weekday(day: int): (w: int)
    ensures 0 <= w < 7
  {
    (day + 4) % 7
  }

  /** `startOfWeek` with the default Sunday start. */
  function WeekStart(day: int): (r: int)
    ensures r <= day < r + 7 && Weekday(r) == 0
  {
    day - Weekday(day)
  }

  /** `endOfWeek` with the default Sunday start: the Saturday on or after `day`. */
  function WeekEnd(day: int): (r: int)
    ensures day <= r < day + 7 && Weekday(r) == 6
  {
    day + (6 - Weekday(day))
  }

  // ---------------------------------------------------------------------------
  // Dates and `subYears`

  /** A calendar date: year, month and day of the month. */
  datatype Date = Date(year: int, month: Month, dom: int)

  predicate ValidDate(d: Date) {
    1 <= d.dom <= DaysInMonth(d.year, d.month)
  }

  /** The day number of a date. */
  function DayOf(d: Date): int {
    MonthStart(YearMonth(d.year, d.month)) + d.dom - 1
  }

  /** The year that holds `day`. */
  function YearOf(day: int): (y: int)
    ensures YearStart(y) <= day < YearStart(y + 1)
  {
    if day >= YearStart(1970) then YearUp(day, 1970) else YearDown(day, 1969)
  }

  function YearUp(day: int, y: int): (r: int)
    requires YearStart(y) <= day
    ensures YearStart(r) <= day < YearStart(r + 1)
    decreases day - YearStart(y)
  {
    YearLength(y);
    if day < YearStart(y + 1) then y else YearUp(day, y + 1)
  }

  function YearDown(day: int, y: int): (r: int)
    requires day < YearStart(y + 1)
    ensures YearStart(r) <= day < YearStart(r + 1)
    decreases YearStart(y) - day
  {
    YearLength(y - 1);
    if YearStart(y) <= day then y else YearDown(day, y - 1)
  }

  /** The month of year `y` that holds day `k` of the year (counted from 0), searching
      from month `m` on. */
  function MonthOf(y: int, k: int, m: Month): (r: Month)
    requires DaysBeforeMonth(y, m) <= k < YearStart(y + 1) - YearStart(y)
    ensures DaysBeforeMonth(y, r) <= k < DaysBeforeMonth(y, r) + DaysInMonth(y, r)
    decreases 12 - m
  {
    YearLength(y);
    if m == 12 || k < DaysBeforeMonth(y, m) + DaysInMonth(y, m) then m
    else
      MonthAfter(y, m);
      MonthOf(y, k, m + 1)
  }

  /** The date of a day number. */
  function DateOf(day: int): (d: Date)
    ensures ValidDate(d) && DayOf(d) == day
  {
    var y := YearOf(day);
    YearLength(y);
    var m := MonthOf(y, day - YearStart(y), 1);
    Date(y, m, day - MonthStart(YearMonth(y, m)) + 1)
  }

  /** Later years start later. */
  lemma {:induction false} YearStartMonotone(a: int, b: int)
    requires a <= b
    ensures YearStart(a) <= YearStart(b)
    decreases b - a
  {
    if a < b {
      YearLength(a);
      YearStartMonotone(a + 1, b);
    }
  }

  /** A month ends before any later month of the year begins. */
  lemma {:induction false} MonthsInOrder(y: int, m: Month, n: Month)
    requires m < n
    ensures DaysBeforeMonth(y, m) + DaysInMonth(y, m) <= DaysBeforeMonth(y, n)
    decreases n - m
  {
    MonthAfter(y, m);
    if m + 1 < n {
      MonthsInOrder(y, m + 1, n);
    }
  }

  /** The days of a valid date lie within its year. */
  lemma DateInYear(d: Date)
    requires ValidDate(d)
    ensures YearStart(d.year) <= DayOf(d) < YearStart(d.year + 1)
  {
    YearLength(d.year);
    if d.month < 12 {
      MonthsInOrder(d.year, d.month, 12);
    }
  }

  /** A day lies in one year only. */
  lemma SameYear(a: int, b: int, day: int)
    requires YearStart(a) <= day < YearStart(a + 1)
    requires YearStart(b) <= day < YearStart(b + 1)
    ensures a == b
  {
    if a < b {
      YearStartMonotone(a + 1, b);
      assert false;
    } else if b < a {
      YearStartMonotone(b + 1, a);
      assert false;
    }
  }

  /** A day of the year lies in one month only. */
  lemma SameMonth(y: int, m: Month, n: Month, k: int)
    requires DaysBeforeMonth(y, m) <= k < DaysBeforeMonth(y, m) + DaysInMonth(y, m)
    requires DaysBeforeMonth(y, n) <= k < DaysBeforeMonth(y, n) + DaysInMonth(y, n)
    ensures m == n
  {
    if m < n {
      MonthsInOrder(y, m, n);
    } else if n < m {
      MonthsInOrder(y, n, m);
    }
  }

  /** Two valid dates on the same day are the same date. */
  lemma SameDate(d: Date, e: Date)
    requires ValidDate(d) && ValidDate(e) && DayOf(d) == DayOf(e)
    ensures d == e
  {
    var day := DayOf(d);
    DateInYear(d);
    DateInYear(e);
    SameYear(d.year, e.year, day);
    SameMonth(d.year, d.month, e.month, day - YearStart(d.year));
  }

  /** Every day has one date: `DateOf` inverts `DayOf`. */
  lemma DateOfDayOf(d: Date)
    requires ValidDate(d)
    ensures DateOf(DayOf(d)) == d
  {
    SameDate(d, DateOf(DayOf(d)));
  }

  /** The same month and day of the month a year earlier, with 29 February becoming
      28 February. */
  function YearBack(d: Date): (r: Date)
    requires ValidDate(d)
    ensures ValidDate(r) && r.year == d.year - 1 && r.month == d.month
    ensures r.dom == d.dom || (d.month == 2 && d.dom == 29 && r.dom == 28 && !IsLeap(r.year))
  {
    var target := DaysInMonth(d.year - 1, d.month);
    Date(d.year - 1, d.month, if d.dom <= target then d.dom else target)
  }

  /** `subYears(date, 1)`: the date `YearBack` of today, at the same time of day. */
  function YearAgo(now: Clock): (r: Clock)
    ensures r.ms == now.ms
    ensures DateOf(r.today) == YearBack(DateOf(now.today))
  {
    var back := YearBack(DateOf(now.today));
    DateOfDayOf(back);
    Clock(DayOf(back), now.ms)
  }

  /** A year back is 365 or 366 days back. */
  lemma YearAgoDistance(now: Clock)
    ensures now.today - 366 <= YearAgo(now).today <= now.today - 365
  {
    var d := DateOf(now.today);
    assert YearAgo(now).today == DayOf(YearBack(d));
    YearBackDays(d);
  }

  lemma YearBackDays(d: Date)
    requires ValidDate(d)
    ensures 365 <= DayOf(d) - DayOf(YearBack(d)) <= 366
  {
    YearLength(d.year - 1);
    ConsecutiveLeaps(d.year);
  }

  /** Two years in a row are never both leap years. */
  lemma ConsecutiveLeaps(y: int)
    ensures !(IsLeap(y - 1) && IsLeap(y))
  {
    if (y - 1) % 4 == 0 {
      assert y % 4 == 1;
    }
  }

  /** Year, month and day of month of a day number (the civil-from-days algorithm). */
  function CivilFromDays(day: int): (int, int, int) {
    var z := day + 719468;
    var era := z / 146097;
    var doe := z - era * 146097;
    var yoe := (doe - doe / 1460 + doe / 36524 - doe / 146096) / 365;
    var doy := doe - (365 * yoe + yoe / 4 - yoe / 100);
    var mp := (5 * doy + 2) / 153;
    var d := doy - (153 * mp + 2) / 5 + 1;
    var m := if mp < 10 then mp + 3 else mp - 9;
    var y := yoe + era * 400 + (if m <= 2 then 1 else 0);
    (y, m, d)
  }

  function Pad(n: int, width: nat): (s: string)
    ensures forall i :: 0 <= i < |s| ==> IsDigit(s[i]) || s[i] == '-'
  {
    var digits := IntToString(n);
    if n >= 0 && |digits| < width then seq(width - |digits|, _ => '0') + digits else digits
  }

  /** `format(date, "yyyy-MM-dd")` and `toISOString().split('T')[0]`. */
  function IsoDate(day: int): (s: string)
    ensures forall i :: 0 <= i < |s| ==> IsDigit(s[i]) || s[i] == '-'
  {
    var (y, m, d) := CivilFromDays(day);
    Pad(y, 4) + "-" + Pad(m, 2) + "-" + Pad(d, 2)
  }
}
