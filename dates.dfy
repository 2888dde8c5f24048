/**
 * The proleptic Gregorian calendar that Python's `date`, `datetime`,
 * `timedelta` and `calendar.monthrange` implement, as used throughout the
 * agenda. Datetimes are naive: a `TimeM` carries the microseconds since
 * midnight, and time zones do not exist in this model.
 */
module Dates {

  /** Microseconds in one day, one hour, one minute, one second, one millisecond. */
  const DayUs: int := 86_400_000_000
  const HourUs: int := 3_600_000_000
  const MinuteUs: int := 60_000_000
  const SecondUs: int := 1_000_000
  const MsUs: int := 1_000

  predicate IsLeap(y: int) {
    y % 4 == 0 && (y % 100 != 0 || y % 400 == 0)
  }

  /** `calendar.monthrange(y, m)[1]`. */
  function DaysInMonth(y: int, m: int): (n: int)
    requires 1 <= m <= 12
    ensures 28 <= n <= 31
    ensures n == 28 <==> m == 2 && !IsLeap(y)
    ensures n == 29 <==> m == 2 && IsLeap(y)
  {
    if m == 2 then (if IsLeap(y) then 29 else 28)
    else if m == 4 || m == 6 || m == 9 || m == 11 then 30
    else 31
  }

  function DaysInYear(y: int): int {
    if IsLeap(y) then 366 else 365
  }

  datatype Date = Date(year: int, month: int, day: int)

  /** A calendar date: a month 1..12 and a day that exists in that month. */
  predicate Valid(d: Date) {
    1 <= d.month <= 12 && 1 <= d.day <= DaysInMonth(d.year, d.month)
  }

  /** The years Python's `date` accepts (MINYEAR..MAXYEAR). */
  predicate InPythonRange(d: Date) {
    1 <= d.year <= 9999
  }

  /** Days in the years before year y, counted from 1 January of year 1. */
  function DaysBeforeYear(y: int): int
    decreases if y >= 1 then y - 1 else 1 - y
  {
    if y == 1 then 0
    else if y > 1 then DaysBeforeYear(y - 1) + DaysInYear(y - 1)
    else DaysBeforeYear(y + 1) - DaysInYear(y)
  }

  lemma DaysBeforeNextYear(y: int)
    ensures DaysBeforeYear(y + 1) == DaysBeforeYear(y) + DaysInYear(y)
  {
  }

  /** Days in the months of year y before month m. */
  function DaysBeforeMonth(y: int, m: int): int
    requires 1 <= m <= 12
  {
    (if m == 1 then 0 else if m == 2 then 31 else if m == 3 then 59
     else if m == 4 then 90 else if m == 5 then 120 else if m == 6 then 151
     else if m == 7 then 181 else if m == 8 then 212 else if m == 9 then 243
     else if m == 10 then 273 else if m == 11 then 304 else 334)
    + (if m > 2 && IsLeap(y) then 1 else 0)
  }

  /** `date.toordinal()`: 1 January of year 1 is day 1. */
  function Ordinal(d: Date): int
    requires Valid(d)
  {
    DaysBeforeYear(d.year) + DaysBeforeMonth(d.year, d.month) + d.day
  }

  /** Python's `<` on dates: lexicographic on (year, month, day). */
  predicate Before(a: Date, b: Date) {
    a.year < b.year
    || (a.year == b.year && a.month < b.month)
    || (a.year == b.year && a.month == b.month && a.day < b.day)
  }

  lemma {:induction false} YearsApart(y1: int, y2: int)
    requires y1 < y2
    ensures DaysBeforeYear(y1) + DaysInYear(y1) <= DaysBeforeYear(y2)
    decreases y2 - y1
  {
    DaysBeforeNextYear(y1);
    if y1 + 1 < y2 {
      YearsApart(y1 + 1, y2);
    }
  }

  lemma MonthsApart(y: int, m1: int, m2: int)
    requires 1 <= m1 < m2 <= 12
    ensures DaysBeforeMonth(y, m1) + DaysInMonth(y, m1) <= DaysBeforeMonth(y, m2)
  {
  }

  lemma DayOfYearBounds(d: Date)
    requires Valid(d)
    ensures 1 <= DaysBeforeMonth(d.year, d.month) + d.day <= DaysInYear(d.year)
  {
  }

  /** Ordinals order dates the way Python compares them, and identify them. */
  lemma OrdinalOrder(a: Date, b: Date)
    requires Valid(a) && Valid(b)
    ensures Ordinal(a) < Ordinal(b) <==> Before(a, b)
    ensures Ordinal(a) == Ordinal(b) <==> a == b
  {
    DayOfYearBounds(a);
    DayOfYearBounds(b);
    if a.year < b.year {
      YearsApart(a.year, b.year);
    } else if b.year < a.year {
      YearsApart(b.year, a.year);
    } else if a.month < b.month {
      MonthsApart(a.year, a.month, b.month);
    } else if b.month < a.month {
      MonthsApart(a.year, b.month, a.month);
    }
  }

  lemma OrdinalInjective(a: Date, b: Date)
    requires Valid(a) && Valid(b) && Ordinal(a) == Ordinal(b)
    ensures a == b
  {
    OrdinalOrder(a, b);
  }

  /** `date.weekday()`: Monday is 0, Sunday is 6. */
  function Weekday(d: Date): (w: int)
    requires Valid(d)
    ensures 0 <= w < 7
  {
    (Ordinal(d) + 6) % 7
  }

  /** `calendar.monthrange(y, m)[0]`: the weekday of the first of the month. */
  function FirstWeekday(y: int, m: int): (w: int)
    requires 1 <= m <= 12
    ensures 0 <= w < 7
  {
    Weekday(Date(y, m, 1))
  }

  /** The weekday advances by one each day and is periodic with period 7. */
  lemma WeekdayOfOrdinal(a: Date, b: Date)
    requires Valid(a) && Valid(b)
    ensures Weekday(b) == (Weekday(a) + (Ordinal(b) - Ordinal(a))) % 7
  {
  }

  /** The day after d. */
  function NextDay(d: Date): (r: Date)
    requires Valid(d)
    ensures Valid(r) && Ordinal(r) == Ordinal(d) + 1
  {
    DaysBeforeNextYear(d.year);
    if d.day < DaysInMonth(d.year, d.month) then Date(d.year, d.month, d.day + 1)
    else if d.month < 12 then Date(d.year, d.month + 1, 1)
    else Date(d.year + 1, 1, 1)
  }

  /** The day before d. */
  function PrevDay(d: Date): (r: Date)
    requires Valid(d)
    ensures Valid(r) && Ordinal(r) == Ordinal(d) - 1
  {
    DaysBeforeNextYear(d.year - 1);
    if d.day > 1 then Date(d.year, d.month, d.day - 1)
    else if d.month > 1 then Date(d.year, d.month - 1, DaysInMonth(d.year, d.month - 1))
    else Date(d.year - 1, 12, 31)
  }

  /** `d + timedelta(days=n)`. */
  function AddDays(d: Date, n: int): (r: Date)
    requires Valid(d)
    ensures Valid(r) && Ordinal(r) == Ordinal(d) + n
    decreases if n >= 0 then n else -n
  {
    if n == 0 then d
    else if n > 0 then AddDays(NextDay(d), n - 1)
    else AddDays(PrevDay(d), n + 1)
  }

  lemma AddDaysAdd(d: Date, a: int, b: int)
    requires Valid(d)
    ensures AddDays(AddDays(d, a), b) == AddDays(d, a + b)
  {
    OrdinalInjective(AddDays(AddDays(d, a), b), AddDays(d, a + b));
  }

  /** `d.replace(day=1)`. */
  function FirstOfMonth(d: Date): (r: Date)
    requires Valid(d)
    ensures Valid(r) && r.day == 1 && Ordinal(r) == Ordinal(d) - d.day + 1
  {
    Date(d.year, d.month, 1)
  }

  /** `d + relativedelta(months=k)`: the month moves, and the day is clamped into it. */
  function AddMonths(d: Date, k: int): (r: Date)
    requires Valid(d)
    ensures Valid(r)
    ensures r.year * 12 + r.month - 1 == d.year * 12 + d.month - 1 + k
    ensures r.day == if d.day <= DaysInMonth(r.year, r.month) then d.day else DaysInMonth(r.year, r.month)
  {
    var t := d.year * 12 + d.month - 1 + k;
    var y := t / 12;
    var m := t % 12 + 1;
    Date(y, m, if d.day <= DaysInMonth(y, m) then d.day else DaysInMonth(y, m))
  }

  /** Month index (years counted in months), the key Python compares first. */
  function MonthIndex(d: Date): int {
    d.year * 12 + d.month - 1
  }

  lemma MonthIndexOrder(a: Date, b: Date)
    requires Valid(a) && Valid(b) && MonthIndex(a) < MonthIndex(b)
    ensures Ordinal(a) < Ordinal(b)
  {
    assert a.year < b.year || (a.year == b.year && a.month < b.month);
    OrdinalOrder(a, b);
  }

  // ---------------------------------------------------------------------
  // Naive dates and datetimes

  /** A `date` (DateM) or a naive `datetime` (TimeM, microseconds since midnight). */
  datatype Moment = DateM(date: Date) | TimeM(date: Date, us: int)

  predicate ValidM(m: Moment) {
    Valid(m.date) && (m.TimeM? ==> 0 <= m.us < DayUs)
  }

  /** Microseconds since the start of day 0; a date counts as its midnight. */
  function Key(m: Moment): int
    requires ValidM(m)
  {
    Ordinal(m.date) * DayUs + (if m.TimeM? then m.us else 0)
  }

  /** A datetime's key determines its date and its time. */
  lemma KeySplit(m: Moment)
    requires ValidM(m)
    ensures Key(m) / DayUs == Ordinal(m.date)
    ensures Key(m) % DayUs == if m.TimeM? then m.us else 0
  {
  }

  lemma KeyInjective(a: Moment, b: Moment)
    requires ValidM(a) && ValidM(b) && a.TimeM? == b.TimeM? && Key(a) == Key(b)
    ensures a == b
  {
    KeySplit(a);
    KeySplit(b);
    OrdinalInjective(a.date, b.date);
  }

  /**
   * `m + timedelta(microseconds=delta)`. On a date Python adds only the whole
   * days of the delta (its normalised `days` field, a floor division).
   */
  function AddUs(m: Moment, delta: int): (r: Moment)
    requires ValidM(m)
    ensures ValidM(r) && r.TimeM? == m.TimeM?
    ensures m.TimeM? ==> Key(r) == Key(m) + delta
    ensures m.DateM? ==> Key(r) == Key(m) + (delta / DayUs) * DayUs
  {
    if m.DateM? then DateM(AddDays(m.date, delta / DayUs))
    else
      var t := m.us + delta;
      TimeM(AddDays(m.date, t / DayUs), t % DayUs)
  }

  /** `datetime.combine(d, time(microsecond=us))`. */
  function Combine(d: Date, us: int): (r: Moment)
    requires Valid(d) && 0 <= us < DayUs
    ensures ValidM(r) && r.TimeM? && Key(r) == Ordinal(d) * DayUs + us
  {
    TimeM(d, us)
  }

  /** Moving a moment by a whole number of days keeps its time of day. */
  lemma AddUsDays(m: Moment, days: int)
    requires ValidM(m)
    ensures Key(AddUs(m, days * DayUs)) == Key(m) + days * DayUs
    ensures AddUs(m, days * DayUs) == m.(date := AddDays(m.date, days))
  {
    DivWholeDays(days, if m.TimeM? then m.us else 0);
  }

  lemma DivWholeDays(days: int, us: int)
    requires 0 <= us < DayUs
    ensures (us + days * DayUs) / DayUs == days
    ensures (us + days * DayUs) % DayUs == us
  {
  }

  /** Two moves of the same kind compose when they are whole days or the moment is timed. */
  lemma AddUsAdd(m: Moment, a: int, b: int)
    requires ValidM(m)
    requires m.TimeM? || (a % DayUs == 0 && b % DayUs == 0)
    ensures AddUs(AddUs(m, a), b) == AddUs(m, a + b)
  {
    var x := AddUs(AddUs(m, a), b);
    var y := AddUs(m, a + b);
    if m.DateM? {
      assert a == (a / DayUs) * DayUs;
      assert b == (b / DayUs) * DayUs;
      assert (a + b) / DayUs == a / DayUs + b / DayUs;
    }
    KeyInjective(x, y);
  }
}
