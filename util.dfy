/**
 * Date helpers shared by the views and the calendar: date/datetime
 * conversion and comparison, week arithmetic, an event's end, the scan
 * that guesses the locale's date order, and the cursor-index clamp the
 * views share.
 */
module Util {
  import opened Wrappers
  import opened Dates
  import opened Text
  import opened Entries

  /** `datetime_to_date`: the date part; a date is returned unchanged. */
  function DatetimeToDate(m: Moment): (r: Moment)
    requires ValidM(m)
    ensures ValidM(r) && r.DateM? && r.date == m.date
    ensures Key(r) <= Key(m) < Key(r) + DayUs
    ensures m.DateM? ==> r == m
  {
    DateM(m.date)
  }

  /** `date_to_datetime` with no time zone: a date becomes its midnight. */
  function DateToDatetime(m: Moment): (r: Moment)
    requires ValidM(m)
    ensures ValidM(r) && r.TimeM? && Key(r) == Key(m)
    ensures m.TimeM? ==> r == m
  {
    if m.TimeM? then m else TimeM(m.date, 0)
  }

  /**
   * `dt_lt`: when either side is a datetime both are compared as datetimes
   * (a date as its midnight); two dates compare as dates.
   */
  function DtLt(a: Moment, b: Moment): (r: bool)
    requires ValidM(a) && ValidM(b)
    ensures r <==> Key(a) < Key(b)
    ensures a.DateM? && b.DateM? ==> (r <==> Before(a.date, b.date))
  {
    OrdinalOrder(a.date, b.date);
    if a.TimeM? || b.TimeM? then Key(DateToDatetime(a)) < Key(DateToDatetime(b))
    else Before(a.date, b.date)
  }

  /** `dt_lte`, by the same rule as `dt_lt`. */
  function DtLte(a: Moment, b: Moment): (r: bool)
    requires ValidM(a) && ValidM(b)
    ensures r <==> Key(a) <= Key(b)
    ensures a.DateM? && b.DateM? ==> (r <==> Before(a.date, b.date) || a.date == b.date)
  {
    OrdinalOrder(a.date, b.date);
    if a.TimeM? || b.TimeM? then Key(DateToDatetime(a)) <= Key(DateToDatetime(b))
    else Before(a.date, b.date) || a.date == b.date
  }

  /** The two comparisons are complementary, whatever the kinds of the operands. */
  lemma DtLteNotLt(a: Moment, b: Moment)
    requires ValidM(a) && ValidM(b)
    ensures DtLte(a, b) == !DtLt(b, a)
  {
  }

  /** `day_in_week`: position of the day in a week that starts on `startWeekDay`. */
  function DayInWeek(m: Moment, startWeekDay: int): (r: int)
    requires ValidM(m)
    ensures 0 <= r < 7
    ensures (startWeekDay + r) % 7 == Weekday(m.date)
  {
    (Weekday(m.date) - startWeekDay) % 7
  }

  lemma WeekBack(a: Date, d: Date, back: int, startWeekDay: int)
    requires Valid(a) && Valid(d) && 0 <= back < 7
    requires (startWeekDay + back) % 7 == Weekday(a)
    requires Ordinal(d) == Ordinal(a) - back
    ensures (Weekday(d) - startWeekDay) % 7 == 0
  {
    WeekdayOfOrdinal(a, d);
    var w := Weekday(a);
    assert Weekday(d) == (w - back) % 7;
  }

  /** `start_of_week`: the first day of the week holding m, at m's time of day. */
  function StartOfWeek(m: Moment, startWeekDay: int): (r: Moment)
    requires ValidM(m)
    ensures ValidM(r) && r.TimeM? == m.TimeM? && (m.TimeM? ==> r.us == m.us)
    ensures Key(r) <= Key(m) <= Key(r) + 6 * DayUs
    ensures Key(m) - Key(r) == DayInWeek(m, startWeekDay) * DayUs
    ensures DayInWeek(r, startWeekDay) == 0
  {
    var back := DayInWeek(m, startWeekDay);
    var d := AddDays(m.date, -back);
    WeekBack(m.date, d, back, startWeekDay);
    if m.TimeM? then TimeM(d, m.us) else DateM(d)
  }

  lemma WeekShift(ws: int, startWeekDay: int, i: int)
    requires 0 <= ws < 7 && 0 <= i < 7 && (ws - startWeekDay) % 7 == 0
    ensures ((ws + i) % 7 - startWeekDay) % 7 == i
  {
    var q := (ws - startWeekDay) / 7;
    assert startWeekDay == ws - 7 * q;
    if ws + i < 7 {
      assert (ws + i) % 7 - startWeekDay == i + 7 * q;
    } else {
      assert (ws + i) % 7 - startWeekDay == i + 7 * (q - 1);
    }
  }

  lemma DayInWeekShift(s: Moment, i: int, startWeekDay: int)
    requires ValidM(s) && 0 <= i < 7 && DayInWeek(s, startWeekDay) == 0
    ensures DayInWeek(s.(date := AddDays(s.date, i)), startWeekDay) == i
  {
    var t := s.(date := AddDays(s.date, i));
    var ws := Weekday(s.date);
    var wt := Weekday(t.date);
    assert Ordinal(t.date) == Ordinal(s.date) + i;
    WeekdayOfOrdinal(s.date, t.date);
    assert wt == (ws + i) % 7;
    assert (ws - startWeekDay) % 7 == 0;
    WeekShift(ws, startWeekDay, i);
    assert DayInWeek(t, startWeekDay) == (wt - startWeekDay) % 7;
  }

  /** Every day of a week has the same start of week. */
  lemma StartOfWeekSame(m: Moment, i: int, startWeekDay: int)
    requires ValidM(m) && 0 <= i < 7
    ensures var s := StartOfWeek(m, startWeekDay);
      StartOfWeek(AddUs(s, i * DayUs), startWeekDay) == s
  {
    var s := StartOfWeek(m, startWeekDay);
    AddUsDays(s, i);
    DayInWeekShift(s, i, startWeekDay);
    var t := s.(date := AddDays(s.date, i));
    var u := StartOfWeek(t, startWeekDay);
    assert Ordinal(u.date) == Ordinal(s.date);
    OrdinalInjective(u.date, s.date);
  }

  /**
   * `start_end_dts_event`: the start, and the end taken from DTEND, else
   * DTSTART + DURATION, else None.
   */
  function StartEndDtsEvent(props: map<string, Value>): (r: (Moment, Option<Moment>))
    requires HasStart(props)
    ensures r.0 == StartOf(props)
    ensures r.1.Some? <==> "DTEND" in props || "DURATION" in props
    ensures "DTEND" in props ==> r.1 == Some(props["DTEND"].at)
    ensures r.1.Some? ==> ValidM(r.1.value)
    ensures "DTEND" !in props && "DURATION" in props && r.0.TimeM? ==>
      r.1.Some? && r.1.value.TimeM? && Key(r.1.value) == Key(r.0) + props["DURATION"].us
    ensures "DTEND" !in props && "DURATION" in props && r.0.DateM? ==>
      r.1.Some? && r.1.value.DateM? && Key(r.1.value) == Key(r.0) + (props["DURATION"].us / DayUs) * DayUs
  {
    var start := StartOf(props);
    if "DTEND" in props then (start, Some(props["DTEND"].at))
    else if "DURATION" in props then (start, Some(AddUs(start, props["DURATION"].us)))
    else (start, None)
  }

  // ---------------------------------------------------------------------
  // guess_date_ord_from_locale

  /** The date-order letter a character of the formatted date 3333-11-22 stands for. */
  function OrderLetter(c: char): Option<char> {
    if c == '3' then Some('Y') else if c == '1' then Some('M') else if c == '2' then Some('D') else None
  }

  /** Letters of the scan over `st[..n]`, a run of one field giving one letter. */
  function OrderScan(st: string): (r: string)
    ensures forall i :: 0 <= i < |r| ==> r[i] in "YMD"
    ensures forall i :: 0 <= i < |r| - 1 ==> r[i] != r[i + 1]
  {
    if |st| == 0 then ""
    else
      var r := OrderScan(st[..|st| - 1]);
      match OrderLetter(st[|st| - 1])
      case None => r
      case Some(l) => if |r| > 0 && r[|r| - 1] == l then r else r + [l]
  }

  /**
   * The string scan of `guess_date_ord_from_locale` over the locale's
   * rendering of 22 November 3333: the order of Y, M and D, or 'YMD'
   * when the scan does not give exactly three letters.
   */
  method GuessDateOrder(st: string) returns (r: string)
    ensures |OrderScan(st)| == 3 ==> r == OrderScan(st)
    ensures |OrderScan(st)| != 3 ==> r == "YMD"
    ensures |r| == 3 && forall i :: 0 <= i < 3 ==> r[i] in "YMD"
  {
    var ret := "";
    for k := 0 to |st|
      invariant ret == OrderScan(st[..k])
    {
      assert st[..k + 1][..k] == st[..k];
      var ch := st[k];
      if ch == '3' {
        if ret == "" || ret[|ret| - 1] != 'Y' {
          ret := ret + "Y";
        }
      } else if ch == '1' {
        if ret == "" || ret[|ret| - 1] != 'M' {
          ret := ret + "M";
        }
      } else if ch == '2' {
        if ret == "" || ret[|ret| - 1] != 'D' {
          ret := ret + "D";
        }
      }
    }
    assert st[..|st|] == st;
    r := if |ret| == 3 then ret else "YMD";
  }

  /** The clamping of `_show_cursor`: an index out of range goes to the last place, or 0 when there is none. */
  function Clamp(idx: int, count: int): (r: int)
    ensures 0 <= r && (count > 0 ==> r < count) && (count <= 0 ==> r == 0)
    ensures 0 <= idx < count ==> r == idx
    ensures !(0 <= idx < count) && count > 0 ==> r == count - 1
  {
    if 0 <= idx < count then idx else if count - 1 > 0 then count - 1 else 0
  }

  /** Clamping twice is clamping once. */
  lemma ClampIdempotent(idx: int, count: int)
    ensures Clamp(Clamp(idx, count), count) == Clamp(idx, count)
  {
  }

  /** Python's `sum` over a list of counts or heights. */
  function Sum(s: seq<nat>): nat {
    if s == [] then 0 else Sum(s[..|s| - 1]) + s[|s| - 1]
  }
}
