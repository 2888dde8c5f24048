/**
 * The date, time and duration entry widgets, each a row of numeric text
 * fields: focus-leave validation, the +/- keys with their wrap-around, and
 * the conversions between the fields' text and a date, a time of day or a
 * duration. A field is modelled by its text.
 */
module Widgets {
  import opened Wrappers
  import opened Dates
  import opened Text

  // ---------------------------------------------------------------------
  // Field limits, validation and the +/- keys

  /** A field's `_elimpad` entry: minimum, maximum, zero-padding width, and whether +/- wrap. */
  datatype Limits = Limits(mn: int, mx: int, pad: nat, wrap: bool)

  /** `validate_entry`'s value: the number clamped into [mn, mx], or mn for text that is not a number. */
  function ValidValue(text: string, mn: int, mx: int): (v: int)
    ensures mn <= mx ==> mn <= v <= mx
    ensures ParseInt(text).None? ==> v == mn
    ensures ParseInt(text).Some? && mn <= ParseInt(text).value <= mx ==> v == ParseInt(text).value
    ensures ParseInt(text).Some? && ParseInt(text).value > mx ==> v == mx
    ensures ParseInt(text).Some? && ParseInt(text).value < mn ==> v == if mn > mx then mx else mn
  {
    match ParseInt(text)
    case None => mn
    case Some(n) =>
      var lo := if mn > n then mn else n;
      if mx < lo then mx else lo
  }

  /** `validate_entry`: the field's text after the focus leaves it. */
  function ValidateEntry(text: string, mn: int, mx: int, pad: nat): string {
    Padded(ValidValue(text, mn, mx), pad)
  }

  /** Validating a field a second time changes nothing. */
  lemma ValidateIdempotent(text: string, mn: int, mx: int, pad: nat)
    requires mn <= mx
    ensures ValidateEntry(ValidateEntry(text, mn, mx, pad), mn, mx, pad) == ValidateEntry(text, mn, mx, pad)
  {
    ParsePadded(ValidValue(text, mn, mx), pad);
  }

  /** The value the + key puts in a field: one more, wrapping to mn or sticking at mx past mx. */
  function IncValue(text: string, lim: Limits): (v: int)
    ensures ParseInt(text).None? && lim.mn <= lim.mx ==> v == lim.mn
    ensures ParseInt(text).Some? && ParseInt(text).value < lim.mx ==> v == ParseInt(text).value + 1
    ensures ParseInt(text).Some? && ParseInt(text).value >= lim.mx ==> v == if lim.wrap then lim.mn else lim.mx
    ensures lim.mn <= lim.mx ==> v <= lim.mx
  {
    var v := match ParseInt(text) case None => lim.mn case Some(n) => n + 1;
    if v > lim.mx then (if lim.wrap then lim.mn else lim.mx) else v
  }

  /** The value the - key puts in a field: one less, wrapping to mx or sticking at mn below mn. */
  function DecValue(text: string, lim: Limits): (v: int)
    ensures ParseInt(text).None? && lim.mn <= lim.mx ==> v == lim.mx
    ensures ParseInt(text).Some? && ParseInt(text).value > lim.mn ==> v == ParseInt(text).value - 1
    ensures ParseInt(text).Some? && ParseInt(text).value <= lim.mn ==> v == if lim.wrap then lim.mx else lim.mn
    ensures lim.mn <= lim.mx ==> v >= lim.mn
  {
    var v := match ParseInt(text) case None => lim.mx case Some(n) => n - 1;
    if v < lim.mn then (if lim.wrap then lim.mx else lim.mn) else v
  }

  /** In a wrapping field, - undoes + for every value in range. */
  lemma DecUndoesInc(v: int, lim: Limits)
    requires lim.wrap && lim.mn <= v <= lim.mx
    ensures DecValue(Padded(IncValue(Padded(v, lim.pad), lim), lim.pad), lim) == v
  {
    ParsePadded(v, lim.pad);
    ParsePadded(IncValue(Padded(v, lim.pad), lim), lim.pad);
  }

  /** In a wrapping field, + undoes - for every value in range. */
  lemma IncUndoesDec(v: int, lim: Limits)
    requires lim.wrap && lim.mn <= v <= lim.mx
    ensures IncValue(Padded(DecValue(Padded(v, lim.pad), lim), lim.pad), lim) == v
  {
    ParsePadded(v, lim.pad);
    ParsePadded(DecValue(Padded(v, lim.pad), lim), lim.pad);
  }

  /** The fields' limits, as the widgets set them up. */
  const YearLimits := Limits(1, 9999, 0, false)
  const MonthLimits := Limits(1, 12, 2, true)
  const DayLimits := Limits(1, 31, 2, true)
  const Hour24Limits := Limits(0, 23, 2, true)
  const Hour12Limits := Limits(1, 12, 0, true)
  const MinuteLimits := Limits(0, 59, 2, true)
  const DurHourLimits := Limits(0, 23, 0, false)

  /** A row of numeric fields with their limits; the +/- keys rewrite one field's text. */
  class FieldRow {
    var texts: seq<string>
    const limits: seq<Limits>

    constructor (texts: seq<string>, limits: seq<Limits>)
      requires |texts| == |limits|
      ensures this.texts == texts && this.limits == limits
    {
      this.texts := texts;
      this.limits := limits;
    }

    /** The + key (or >, or shift-up) in field idx. */
    method Plus(idx: int)
      requires 0 <= idx < |texts| == |limits|
      modifies this
      ensures texts == old(texts)[idx := Padded(IncValue(old(texts)[idx], limits[idx]), limits[idx].pad)]
    {
      texts := texts[idx := Padded(IncValue(texts[idx], limits[idx]), limits[idx].pad)];
    }

    /** The - key (or <, or shift-down) in field idx. */
    method Minus(idx: int)
      requires 0 <= idx < |texts| == |limits|
      modifies this
      ensures texts == old(texts)[idx := Padded(DecValue(old(texts)[idx], limits[idx]), limits[idx].pad)]
    {
      texts := texts[idx := Padded(DecValue(texts[idx], limits[idx]), limits[idx].pad)];
    }

    /** The focus leaving field idx. */
    method Validate(idx: int)
      requires 0 <= idx < |texts| == |limits|
      modifies this
      ensures texts == old(texts)[idx := ValidateEntry(old(texts)[idx], limits[idx].mn, limits[idx].mx, limits[idx].pad)]
    {
      texts := texts[idx := ValidateEntry(texts[idx], limits[idx].mn, limits[idx].mx, limits[idx].pad)];
    }
  }

  /**
   * `_focus_count`: the widget is styled as focused while any of its
   * fields has the focus; focus-out arrives after the matching focus-in.
   */
  class FocusCounter {
    var count: int
    var styled: bool

    constructor ()
      ensures count == 0 && !styled
    {
      count := 0;
      styled := false;
    }

    method FocusIn()
      modifies this
      ensures count == old(count) + 1
      ensures styled == (old(styled) || old(count) == 0)
      ensures old(count) >= 0 && (old(styled) <==> old(count) > 0) ==> (styled <==> count > 0)
    {
      if count == 0 {
        styled := true;
      }
      count := count + 1;
    }

    method FocusOut()
      modifies this
      ensures count == old(count) - 1
      ensures styled == (old(styled) && count != 0)
      ensures old(count) > 0 && (old(styled) <==> old(count) > 0) ==> (styled <==> count > 0)
    {
      count := count - 1;
      if count == 0 {
        styled := false;
      }
    }
  }

  // ---------------------------------------------------------------------
  // WidgetDate

  /** Python's `date(y, m, d)`: None for the ValueError of an impossible date. */
  function MakeDate(y: int, m: int, d: int): (r: Option<Date>)
    ensures r.Some? <==> Valid(Date(y, m, d)) && InPythonRange(Date(y, m, d))
    ensures r.Some? ==> r.value == Date(y, m, d)
  {
    if 1 <= m <= 12 && 1 <= d <= DaysInMonth(y, m) && 1 <= y <= 9999 then Some(Date(y, m, d)) else None
  }

  class WidgetDate {
    var yearText: string
    var monthText: string
    var dayText: string

    /** `set_date`; None shows today. */
    constructor (dt: Option<Date>, today: Date)
      ensures var d := if dt.None? then today else dt.value;
        yearText == IntString(d.year) && monthText == Padded(d.month, 2) && dayText == Padded(d.day, 2)
    {
      var d := if dt.None? then today else dt.value;
      yearText := IntString(d.year);
      monthText := Padded(d.month, 2);
      dayText := Padded(d.day, 2);
    }

    /** `set_date`: the year unpadded, month and day as two digits; None shows today. */
    method SetDate(dt: Option<Date>, today: Date)
      modifies this
      ensures var d := if dt.None? then today else dt.value;
        yearText == IntString(d.year) && monthText == Padded(d.month, 2) && dayText == Padded(d.day, 2)
    {
      var d := if dt.None? then today else dt.value;
      yearText := IntString(d.year);
      monthText := Padded(d.month, 2);
      dayText := Padded(d.day, 2);
    }

    /** `get_date_or_none`: the date the fields spell, or None when one is not a number or the date is impossible. */
    function GetDateOrNone(): (r: Option<Date>)
      reads this
      ensures r.Some? ==> Valid(r.value) && InPythonRange(r.value)
      ensures r.Some? ==> ParseInt(yearText) == Some(r.value.year) && ParseInt(monthText) == Some(r.value.month)
      ensures r.Some? ==> ParseInt(dayText) == Some(r.value.day)
      ensures r.None? <==>
        ParseInt(yearText).None? || ParseInt(monthText).None? || ParseInt(dayText).None?
        || MakeDate(ParseInt(yearText).value, ParseInt(monthText).value, ParseInt(dayText).value).None?
    {
      match (ParseInt(yearText), ParseInt(monthText), ParseInt(dayText))
      case (Some(y), Some(m), Some(d)) => MakeDate(y, m, d)
      case _ => None
    }

    /**
     * `get_approx_date_or_none`: the exact date when there is one; else
     * year clamped into 1..9999, month into 1..12 and day into the month,
     * today's year or month for a field that is not a number and day 1 for
     * a day that is not.
     */
    function GetApproxDate(today: Date): (r: Date)
      reads this
      requires Valid(today) && InPythonRange(today)
      ensures Valid(r) && InPythonRange(r)
      ensures GetDateOrNone().Some? ==> r == GetDateOrNone().value
      ensures GetDateOrNone().None? && ParseInt(yearText).None? ==> r.year == today.year
      ensures GetDateOrNone().None? && ParseInt(monthText).None? ==> r.month == today.month
      ensures GetDateOrNone().None? && ParseInt(dayText).None? ==> r.day == 1
    {
      match GetDateOrNone()
      case Some(d) => d
      case None =>
        var y := match ParseInt(yearText) case None => today.year case Some(v) => if v <= 0 then 1 else if v > 9999 then 9999 else v;
        var m := match ParseInt(monthText) case None => today.month case Some(v) => if v <= 0 then 1 else if v > 12 then 12 else v;
        var d := match ParseInt(dayText) case None => 1 case Some(v) => if v <= 0 then 1 else if v > DaysInMonth(y, m) then DaysInMonth(y, m) else v;
        Date(y, m, d)
    }
  }

  /** What `set_date` writes, `get_date` reads back. */
  lemma DateRoundTrip(w: WidgetDate, d: Date)
    requires Valid(d) && InPythonRange(d)
    requires w.yearText == IntString(d.year) && w.monthText == Padded(d.month, 2) && w.dayText == Padded(d.day, 2)
    ensures w.GetDateOrNone() == Some(d)
  {
    ParseIntString(d.year);
    ParsePadded(d.month, 2);
    ParsePadded(d.day, 2);
  }

  /**
   * Each field that holds a number is clamped on its own, whatever the other
   * fields hold: the year into 1..9999, the month into 1..12 and the day
   * into 1..the length of the resulting month.
   */
  lemma ApproxDateClamps(w: WidgetDate, today: Date)
    requires Valid(today) && InPythonRange(today)
    ensures var r := w.GetApproxDate(today); var py := ParseInt(w.yearText);
      py.Some? ==> r.year == (if py.value < 1 then 1 else if py.value > 9999 then 9999 else py.value)
    ensures var r := w.GetApproxDate(today); var pm := ParseInt(w.monthText);
      pm.Some? ==> r.month == (if pm.value < 1 then 1 else if pm.value > 12 then 12 else pm.value)
    ensures var r := w.GetApproxDate(today); var pd := ParseInt(w.dayText);
      pd.Some? ==> r.day == (if pd.value < 1 then 1 else if pd.value > DaysInMonth(r.year, r.month) then DaysInMonth(r.year, r.month) else pd.value)
  {
  }

  // ---------------------------------------------------------------------
  // WidgetTime

  /** A time of day to the minute, as the time widget shows it. */
  datatype Clock = Clock(hour: int, minute: int)

  predicate ValidClock(t: Clock) {
    0 <= t.hour < 24 && 0 <= t.minute < 60
  }

  /** The hour field in 12-hour mode: 12 for midnight and noon, else the hour modulo 12. */
  function Hour12(h: int): (r: int)
    requires 0 <= h < 24
    ensures 1 <= r <= 12 && r % 12 == h % 12
  {
    if h == 0 then 12 else if h > 12 then h - 12 else h
  }

  class WidgetTime {
    const is24: bool
    var hourText: string
    var minText: string
    /** The am/pm field's id, 'a' or 'p'; unused in 24-hour mode. */
    var ampm: char

    constructor (is24: bool, tm: Clock)
      requires ValidClock(tm)
      ensures this.is24 == is24 && Shows(tm)
    {
      this.is24 := is24;
      hourText := if is24 then Padded(tm.hour, 2) else IntString(Hour12(tm.hour));
      ampm := if tm.hour < 12 then 'a' else 'p';
      minText := Padded(tm.minute, 2);
    }

    /** The fields as `set_time` leaves them for tm. */
    ghost predicate Shows(tm: Clock)
      reads this
      requires ValidClock(tm)
    {
      minText == Padded(tm.minute, 2)
      && (is24 ==> hourText == Padded(tm.hour, 2))
      && (!is24 ==> hourText == IntString(Hour12(tm.hour)) && ampm == (if tm.hour < 12 then 'a' else 'p'))
    }

    /** `set_time`: in 12-hour mode the hour is 12 for 0 and 12, and the am/pm field says which half of the day. */
    method SetTime(tm: Clock)
      requires ValidClock(tm)
      modifies this
      ensures Shows(tm)
    {
      if is24 {
        hourText := Padded(tm.hour, 2);
      } else {
        ampm := if tm.hour < 12 then 'a' else 'p';
        hourText := IntString(Hour12(tm.hour));
      }
      minText := Padded(tm.minute, 2);
    }

    /** `get_time_or_none`: None when a field is not a number or the time does not exist. */
    function GetTimeOrNone(): (r: Option<Clock>)
      reads this
      ensures r.Some? ==> ValidClock(r.value) && ParseInt(minText) == Some(r.value.minute)
      ensures r.Some? && is24 ==> ParseInt(hourText) == Some(r.value.hour)
      ensures ParseInt(hourText).None? || ParseInt(minText).None? ==> r.None?
    {
      match (ParseInt(hourText), ParseInt(minText))
      case (Some(h0), Some(m)) =>
        var h := if is24 then h0 else (if h0 == 12 then 0 else h0) + (if ampm == 'p' then 12 else 0);
        if 0 <= h < 24 && 0 <= m < 60 then Some(Clock(h, m)) else None
      case _ => None
    }
  }

  /** What `set_time` writes, `get_time` reads back, in either mode. */
  lemma TimeRoundTrip(w: WidgetTime, tm: Clock)
    requires ValidClock(tm) && w.Shows(tm)
    ensures w.GetTimeOrNone() == Some(tm)
  {
    var m := w.minText;
    ParsePadded(tm.minute, 2);
    assert ParseInt(m) == Some(tm.minute);
    var hv := if w.is24 then tm.hour else Hour12(tm.hour);
    if w.is24 {
      ParsePadded(tm.hour, 2);
    } else {
      ParseIntString(Hour12(tm.hour));
    }
    TimeFromFields(w, tm, hv);
  }

  /** The fields' numbers, read as `get_time` reads them, give back the time they came from. */
  lemma TimeFromFields(w: WidgetTime, tm: Clock, hv: int)
    requires ValidClock(tm) && ParseInt(w.minText) == Some(tm.minute) && ParseInt(w.hourText) == Some(hv)
    requires w.is24 ==> hv == tm.hour
    requires !w.is24 ==> hv == Hour12(tm.hour) && w.ampm == (if tm.hour < 12 then 'a' else 'p')
    ensures w.GetTimeOrNone() == Some(tm)
  {
  }

  // ---------------------------------------------------------------------
  // WidgetDuration

  /**
   * The width `_init_field_numeric(0, 23, …)` gives the duration's hour
   * field: `len(str(23))` characters.
   */
  const DurationHourLen: nat := 2

  /** What a field whose `set_max_length` is maxLen keeps of the text it is given: the first maxLen characters. */
  function Fit(text: string, maxLen: nat): (r: string)
    ensures |r| <= maxLen && |r| <= |text| && r == text[..|r|]
    ensures |text| <= maxLen ==> r == text
  {
    if |text| <= maxLen then text else text[..maxLen]
  }

  class WidgetDuration {
    var hourText: string
    var minText: string

    constructor (us: int)
      ensures hourText == Fit(IntString(us / MinuteUs / 60), DurationHourLen)
      ensures minText == Padded(us / MinuteUs % 60, 2)
    {
      hourText := Fit(IntString(us / MinuteUs / 60), DurationHourLen);
      minText := Padded(us / MinuteUs % 60, 2);
    }

    /**
     * `set_duration`: whole minutes, split into hours and minutes (floor
     * division). The hour field keeps only its first two characters, so
     * 100 hours or more lose their last digits.
     */
    method SetDuration(us: int)
      modifies this
      ensures hourText == Fit(IntString(us / MinuteUs / 60), DurationHourLen)
      ensures minText == Padded(us / MinuteUs % 60, 2)
    {
      var totMin := us / MinuteUs;
      hourText := Fit(IntString(totMin / 60), DurationHourLen);
      minText := Padded(totMin % 60, 2);
    }

    /** `get_duration_or_none`: None for minutes outside 0..59 or negative hours. */
    function GetDurationOrNone(): (r: Option<int>)
      reads this
      ensures r.Some? ==> r.value >= 0 && r.value % MinuteUs == 0
      ensures r.Some? <==>
        ParseInt(hourText).Some? && ParseInt(minText).Some?
        && ParseInt(hourText).value >= 0 && 0 <= ParseInt(minText).value < 60
      ensures r.Some? ==> r.value == ParseInt(hourText).value * HourUs + ParseInt(minText).value * MinuteUs
    {
      match (ParseInt(hourText), ParseInt(minText))
      case (Some(h), Some(m)) => if 0 <= m < 60 && h >= 0 then Some(h * HourUs + m * MinuteUs) else None
      case _ => None
    }
  }

  /**
   * `set_duration` then `get_duration` fails exactly for a negative
   * duration. Below 100 hours it gives the duration truncated to whole
   * minutes; the two-character hour field never reads back 100 hours or more.
   */
  lemma DurationRoundTrip(w: WidgetDuration, us: int)
    requires w.hourText == Fit(IntString(us / MinuteUs / 60), DurationHourLen)
    requires w.minText == Padded(us / MinuteUs % 60, 2)
    ensures w.GetDurationOrNone().Some? <==> us >= 0
    ensures 0 <= us < 100 * HourUs ==> w.GetDurationOrNone() == Some(us / MinuteUs * MinuteUs)
    ensures us >= 0 ==> w.GetDurationOrNone().value < 100 * HourUs
  {
    var totMin := us / MinuteUs;
    var h := totMin / 60;
    var m := totMin % 60;
    ParsePadded(m, 2);
    if h < 0 {
      DurationNegativeHours(w.hourText, h);
    } else if h < 100 {
      NatStringShort(h);
      ParseIntString(h);
      DurationFromFields(w, us, h, m);
    } else {
      var hv := DurationCutHours(w.hourText, h);
      assert hv * HourUs + m * MinuteUs < 100 * HourUs;
    }
  }

  /** A negative hour count keeps its sign and first digit, and reads back negative. */
  lemma DurationNegativeHours(text: string, h: int)
    requires h < 0 && text == Fit(IntString(h), DurationHourLen)
    ensures ParseInt(text).Some? && ParseInt(text).value < 0
  {
    var digits := NatString(-h);
    var body := [digits[0]];
    NatStringLead(-h);
    assert IntString(h) == "-" + digits;
    assert text == ("-" + digits)[..2];
    assert |text| == 2 && text[0] == '-' && text[1..] == body;
    assert AllDigits(body) && DigitsValue(body) >= 1 by {
      assert IsDigit(digits[0]);
      assert body[..0] == [];
    }
    ParseNegDigits(text, body);
  }

  /** An hour count of 100 or more reads back as its first two digits. */
  lemma DurationCutHours(text: string, h: int) returns (hv: int)
    requires h >= 100 && text == Fit(IntString(h), DurationHourLen)
    ensures ParseInt(text) == Some(hv) && 0 <= hv <= 99
  {
    var digits := NatString(h);
    assert text == digits[..2];
    assert AllDigits(text);
    ParseDigits(text);
    DigitsValueShort(text);
    hv := DigitsValue(text);
  }

  lemma DurationFromFields(w: WidgetDuration, us: int, h: int, m: int)
    requires h == us / MinuteUs / 60 && m == us / MinuteUs % 60
    requires ParseInt(w.hourText) == Some(h) && ParseInt(w.minText) == Some(m)
    ensures w.GetDurationOrNone().Some? <==> us >= 0
    ensures us >= 0 ==> w.GetDurationOrNone() == Some(us / MinuteUs * MinuteUs)
  {
    var totMin := us / MinuteUs;
    assert totMin == h * 60 + m && 0 <= m < 60;
    assert us >= 0 <==> h >= 0;
    assert h * HourUs + m * MinuteUs == totMin * MinuteUs;
  }

}
