/** The proleptic Gregorian calendar of Python's `datetime.date`, counted in
    days since 1970-01-01. Timestamps are whole seconds since 1970-01-01 00:00
    local time; `date.today()` is the day number of `now`. */
module Calendar {

  const SECONDS_PER_DAY: nat := 86400
  const EPOCH_YEAR: int := 1970

  predicate IsLeapYear(y: int) { y % 4 == 0 && (y % 100 != 0 || y % 400 == 0) }

  function DaysInYear(y: int): nat { if IsLeapYear(y) then 366 else 365 }

  function DaysInMonth(y: int, m: int): nat
    requires 1 <= m <= 12
  {
    if m == 2 then (if IsLeapYear(y) then 29 else 28)
    else if m == 4 || m == 6 || m == 9 || m == 11 then 30
    else 31
  }

  datatype Date = Date(year: int, month: int, day: int)

  /** What `datetime.date(year, month, day)` accepts (the upper year bound of
      9999 is enforced where the source's formats enforce it). */
  predicate ValidDate(d: Date) {
    1 <= d.year && 1 <= d.month <= 12 && 1 <= d.day <= DaysInMonth(d.year, d.month)
  }

  /** A valid date on or after the epoch. */
  predicate EpochDate(d: Date) { ValidDate(d) && d.year >= EPOCH_YEAR }

  function DaysBeforeYear(y: int): nat
    requires y >= EPOCH_YEAR
    decreases y - EPOCH_YEAR
  {
    if y == EPOCH_YEAR then 0 else DaysBeforeYear(y - 1) + DaysInYear(y - 1)
  }

  /** Days of year `y` before the first of month `m` (`m == 13` gives the whole year). */
  function DaysBeforeMonth(y: int, m: int): nat
    requires 1 <= m <= 13
  {
    if m == 1 then 0 else DaysBeforeMonth(y, m - 1) + DaysInMonth(y, m - 1)
  }

  lemma YearIsTwelveMonths(y: int)
    ensures DaysBeforeMonth(y, 13) == DaysInYear(y)
  {
    var feb := DaysInMonth(y, 2);
    assert DaysBeforeMonth(y, 2) == 31;
    assert DaysBeforeMonth(y, 3) == 31 + feb;
    assert DaysBeforeMonth(y, 4) == 62 + feb;
    assert DaysBeforeMonth(y, 5) == 92 + feb;
    assert DaysBeforeMonth(y, 6) == 123 + feb;
    assert DaysBeforeMonth(y, 7) == 153 + feb;
    assert DaysBeforeMonth(y, 8) == 184 + feb;
    assert DaysBeforeMonth(y, 9) == 215 + feb;
    assert DaysBeforeMonth(y, 10) == 245 + feb;
    assert DaysBeforeMonth(y, 11) == 276 + feb;
    assert DaysBeforeMonth(y, 12) == 306 + feb;
  }

  lemma {:induction false} DaysBeforeMonthMonotone(y: int, m: int, m': int)
    requires 1 <= m <= m' <= 13
    ensures DaysBeforeMonth(y, m) <= DaysBeforeMonth(y, m')
    decreases m' - m
  {
    if m < m' { DaysBeforeMonthMonotone(y, m, m' - 1); }
  }

  lemma {:induction false} DaysBeforeYearMonotone(y: int, y': int)
    requires EPOCH_YEAR <= y < y'
    ensures DaysBeforeYear(y) + DaysInYear(y) <= DaysBeforeYear(y')
    decreases y' - y
  {
    if y + 1 < y' { DaysBeforeYearMonotone(y, y' - 1); }
  }

  /** Day number of a date: days since 1970-01-01. */
  function DayNumber(d: Date): nat
    requires EpochDate(d)
  {
    DaysBeforeYear(d.year) + DaysBeforeMonth(d.year, d.month) + d.day - 1
  }

  /** Day of the year, counted from 0. */
  lemma DayOfYearBound(d: Date)
    requires ValidDate(d)
    ensures DaysBeforeMonth(d.year, d.month) + d.day - 1 < DaysInYear(d.year)
  {
    DaysBeforeMonthMonotone(d.year, d.month + 1, 13);
    YearIsTwelveMonths(d.year);
  }

  /** The date `r` days after the first of month `m` of year `y`. */
  function DateInYear(y: int, m: int, r: nat): (d: Date)
    requires y >= EPOCH_YEAR && 1 <= m <= 12
    requires DaysBeforeMonth(y, m) + r < DaysInYear(y)
    ensures EpochDate(d) && d.year == y
    ensures DaysBeforeMonth(y, d.month) + d.day - 1 == DaysBeforeMonth(y, m) + r
    decreases 12 - m
  {
    if r < DaysInMonth(y, m) then Date(y, m, r + 1)
    else
      assert m < 12 by {
        if m == 12 { YearIsTwelveMonths(y); }
      }
      DateInYear(y, m + 1, r - DaysInMonth(y, m))
  }

  /** The date `r` days after January 1 of year `y`. */
  function DateFrom(y: int, r: nat): (d: Date)
    requires y >= EPOCH_YEAR
    ensures EpochDate(d) && DayNumber(d) == DaysBeforeYear(y) + r
    decreases r
  {
    if r < DaysInYear(y) then DateInYear(y, 1, r)
    else DateFrom(y + 1, r - DaysInYear(y))
  }

  /** The calendar date of a day number. */
  function DateOf(n: nat): (d: Date)
    ensures EpochDate(d) && DayNumber(d) == n
  {
    DateFrom(EPOCH_YEAR, n)
  }

  /** A day number lies in exactly one year. */
  lemma {:induction false} YearOfDayNumber(d: Date, y: int)
    requires EpochDate(d) && y >= EPOCH_YEAR
    requires DaysBeforeYear(y) <= DayNumber(d) < DaysBeforeYear(y) + DaysInYear(y)
    ensures d.year == y
  {
    DayOfYearBound(d);
    if d.year < y {
      DaysBeforeYearMonotone(d.year, y);
    } else if d.year > y {
      DaysBeforeYearMonotone(y, d.year);
    }
  }

  /** Within a year, a day offset lies in exactly one month. */
  lemma MonthOfDayOffset(d: Date, m: int)
    requires ValidDate(d) && 1 <= m <= 12
    requires DaysBeforeMonth(d.year, m) <= DaysBeforeMonth(d.year, d.month) + d.day - 1
    requires DaysBeforeMonth(d.year, d.month) + d.day - 1 < DaysBeforeMonth(d.year, m + 1)
    ensures d.month == m
  {
    if d.month < m {
      DaysBeforeMonthMonotone(d.year, d.month + 1, m);
    } else if d.month > m {
      DaysBeforeMonthMonotone(d.year, m + 1, d.month);
    }
  }

  /** Two dates with the same day number are the same date. */
  lemma DayNumberInjective(d: Date, e: Date)
    requires EpochDate(d) && EpochDate(e) && DayNumber(d) == DayNumber(e)
    ensures d == e
  {
    DayOfYearBound(e);
    YearOfDayNumber(d, e.year);
    assert d.year == e.year;
    MonthOfDayOffset(d, e.month);
  }

  /** DateOf inverts DayNumber. */
  lemma DateOfDayNumber(d: Date)
    requires EpochDate(d)
    ensures DateOf(DayNumber(d)) == d
  {
    DayNumberInjective(DateOf(DayNumber(d)), d);
  }

  /** ISO weekday of a day number, Monday = 1 ... Sunday = 7 (1970-01-01 was a Thursday). */
  function IsoWeekday(n: nat): (w: int)
    ensures 1 <= w <= 7
  {
    (n + 3) % 7 + 1
  }

  /** Seven days later it is the same weekday; one day later it is the next. */
  lemma WeekdayShift(n: nat, k: nat)
    ensures IsoWeekday(n + k) == (IsoWeekday(n) - 1 + k) % 7 + 1
  {
    var q, r := (n + 3) / 7, (n + 3) % 7;
    assert n + k + 3 == 7 * q + (r + k);
    var q', r' := (r + k) / 7, (r + k) % 7;
    WeekRemainder(n + k + 3, q + q', r');
  }

  /** The remainder by seven is the `r` of any `7 * q + r` with `r` below seven. */
  lemma WeekRemainder(x: int, q: int, r: int)
    requires x == 7 * q + r && 0 <= r < 7
    ensures x % 7 == r
  {
  }

  /** Seconds since the epoch of a date at a time of day. */
  function Combine(day: nat, secondOfDay: nat): nat { day * SECONDS_PER_DAY + secondOfDay }

  /** The day number of a timestamp (`dt.date()`), and its time of day. */
  function DayOf(t: nat): nat { t / SECONDS_PER_DAY }
  function TimeOfDay(t: nat): (s: nat) ensures s < SECONDS_PER_DAY { t % SECONDS_PER_DAY }

  lemma CombineSplit(t: nat)
    ensures Combine(DayOf(t), TimeOfDay(t)) == t
  {
  }

  lemma DayOfCombine(day: nat, s: nat)
    requires s < SECONDS_PER_DAY
    ensures DayOf(Combine(day, s)) == day && TimeOfDay(Combine(day, s)) == s
  {
    var t := Combine(day, s);
    assert t == day * SECONDS_PER_DAY + s;
  }
}
