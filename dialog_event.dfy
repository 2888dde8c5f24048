/**
 * The event dialog's repeat and alarm logic, with the widgets abstracted to
 * the values they hold: which weekday of its month a date is, the BYDAY,
 * BYMONTH and BYMONTHDAY strings built from the start date, the repeat
 * interval and count read from text, the repeat end recomputed from the
 * occurrence count, the exception-date list, alarm offsets, and the
 * exception-dates sub-dialog.
 */
module DialogEvent {
  import opened Wrappers
  import opened Dates
  import opened Text
  import opened Entries
  import opened Info
  import opened RecurRule

  // ---------------------------------------------------------------------
  // Which weekday of the month

  /** `_weekday_count_in_month`: d is the r-th day of its weekday in its month. */
  function WeekdayCountInMonth(d: Date): (r: int)
    requires Valid(d)
    ensures 1 <= r <= 5
    ensures 7 * (r - 1) < d.day <= 7 * r
  {
    (d.day + 6) / 7
  }

  /**
   * `_weekday_fromend_in_month`: d is the (-r)-th day of its weekday
   * counting back from the end of its month; -1 means the last one.
   */
  function WeekdayFromEndInMonth(d: Date): (r: int)
    requires Valid(d)
    ensures -5 <= r <= -1
    ensures 7 * (-r - 1) <= DaysInMonth(d.year, d.month) - d.day < 7 * (-r)
  {
    var x := d.day - DaysInMonth(d.year, d.month) - 1;
    FloorNegated(x);
    x / 7
  }

  /** Floor division by 7 of -x-1 is minus one more than that of x. */
  lemma FloorNegated(x: int)
    ensures (-x - 1) / 7 == -(x / 7) - 1
  {
    var q := x / 7;
    assert 7 * q <= x < 7 * q + 7;
    assert 7 * (-q - 1) <= -x - 1 < 7 * (-q);
  }

  /** Each of the last seven days of a month is the last of its weekday. */
  lemma LastWeekFromEnd(d: Date)
    requires Valid(d) && d.day > DaysInMonth(d.year, d.month) - 7
    ensures WeekdayFromEndInMonth(d) == -1
  {
  }

  /** A BYDAY value: the count, then the weekday's two-letter name ("2SU", "-1MO"). */
  function ByDayString(count: int, d: Date): string
    requires Valid(d)
  {
    IntString(count) + DayAbbr(Weekday(d))
  }

  /** The BYMONTHDAY value of a "from end" monthly repeat: -1 is the last day. */
  function MonthDayFromEnd(d: Date): (r: int)
    requires Valid(d)
    ensures -31 <= r <= -1 && DaysInMonth(d.year, d.month) + 1 + r == d.day
    ensures r == -1 <==> d.day == DaysInMonth(d.year, d.month)
  {
    d.day - DaysInMonth(d.year, d.month) - 1
  }

  /** A BYDAY value splits back into its count and its weekday name. */
  lemma ByDayParts(idx: int, d: Date)
    requires Valid(d)
    ensures AbbrPart(ByDayString(idx, d)) == DayAbbr(Weekday(d))
    ensures ParseInt(NumberPart(ByDayString(idx, d))) == Some(idx)
  {
    var s := ByDayString(idx, d);
    assert s[..|s| - 2] == IntString(idx) && s[|s| - 2..] == DayAbbr(Weekday(d));
    ParseIntString(idx);
  }

  /**
   * A BYDAY value built from a start date reads back to that date:
   * `firstday_to_byweekdayinmonth` from the first of d's month, with d's own
   * count (from the start or from the end) and weekday, gives d.
   */
  lemma ByDayLands(d: Date, idx: int)
    requires Valid(d) && 1 <= Abs(idx) <= 4
    requires idx == WeekdayCountInMonth(d) || idx == WeekdayFromEndInMonth(d)
    ensures FirstdayTo(FirstOfMonth(d), idx, Weekday(d)) == d
  {
    SlotOf(d, idx);
    SameSlotSameDay(FirstOfMonth(d), FirstdayTo(FirstOfMonth(d), idx, Weekday(d)), d, idx);
  }

  /** Two dates of one month with the same weekday and the same week-slot are equal. */
  lemma SameSlotSameDay(first: Date, r: Date, d: Date, idx: int)
    requires Valid(first) && first.day == 1 && Valid(r) && Valid(d) && idx != 0
    requires r.year == first.year && r.month == first.month && d.year == first.year && d.month == first.month
    requires Weekday(r) == Weekday(d)
    requires idx > 0 ==> (r.day - 1) / 7 == idx - 1 && 7 * (idx - 1) < d.day <= 7 * idx
    requires idx < 0 ==> (DaysInMonth(r.year, r.month) - r.day) / 7 == -idx - 1
    requires idx < 0 ==> 7 * (-idx - 1) <= DaysInMonth(d.year, d.month) - d.day < 7 * (-idx)
    ensures r == d
  {
    FirstdayWeekday(first, r);
    FirstdayWeekday(first, d);
    SameWeekdaySlot(Weekday(first), r.day, d.day, DaysInMonth(d.year, d.month), idx);
  }

  /** The week-slot bounds of d's own counts. */
  lemma SlotOf(d: Date, idx: int)
    requires Valid(d) && idx != 0
    requires idx == WeekdayCountInMonth(d) || idx == WeekdayFromEndInMonth(d)
    ensures idx > 0 ==> 7 * (idx - 1) < d.day <= 7 * idx
    ensures idx < 0 ==> 7 * (-idx - 1) <= DaysInMonth(d.year, d.month) - d.day < 7 * (-idx)
  {
  }

  /** Two days of a month with the same weekday and in the same week-slot are the same day. */
  lemma SameWeekdaySlot(fw: int, a: int, b: int, dim: int, idx: int)
    requires (fw + a - 1) % 7 == (fw + b - 1) % 7
    requires idx > 0 ==> (a - 1) / 7 == idx - 1 && 7 * (idx - 1) < b <= 7 * idx
    requires idx < 0 ==> (dim - a) / 7 == -idx - 1 && 7 * (-idx - 1) <= dim - b < 7 * (-idx)
    requires idx != 0
    ensures a == b
  {
    var qa := (fw + a - 1) / 7;
    var qb := (fw + b - 1) / 7;
    assert (fw + a - 1) - (fw + b - 1) == 7 * (qa - qb);
    assert -7 < a - b < 7;
  }

  // ---------------------------------------------------------------------
  // Interval and occurrence count

  /**
   * `get_repeat_interval` and `get_repeat_occurrences`: the number in the
   * text, raised to 1 when it is below 1; 1 when the text is not a number.
   */
  function PositiveOrOne(text: string): (r: int)
    ensures r >= 1
    ensures ParseInt(text).Some? && ParseInt(text).value >= 1 ==> r == ParseInt(text).value
    ensures ParseInt(text).None? || ParseInt(text).value < 1 ==> r == 1
  {
    match ParseInt(text)
    case None => 1
    case Some(v) => if v < 1 then 1 else v
  }

  // ---------------------------------------------------------------------
  // Repeat end from the occurrence count

  /** What `_sync_rep_ends_from_occs` does to the end-date widget. */
  datatype EndSync = NoChange | ByRuleLibrary | SetEnd(end: Date)

  /** The repeat-type combo's id as an RRULE frequency; any other id is kept as `OtherFreq`. */
  function FreqOf(name: string): (f: Freq)
    ensures f.OtherFreq? ==> f.name == name
  {
    if name == "YEARLY" then Yearly
    else if name == "MONTHLY" then Monthly
    else if name == "WEEKLY" then Weekly
    else if name == "DAILY" then Daily
    else if name == "HOURLY" then Hourly
    else if name == "MINUTELY" then Minutely
    else if name == "SECONDLY" then Secondly
    else OtherFreq(name)
  }

  /** The RRULE name of a frequency. */
  function FreqName(f: Freq): string {
    match f
    case Yearly => "YEARLY"
    case Monthly => "MONTHLY"
    case Weekly => "WEEKLY"
    case Daily => "DAILY"
    case Hourly => "HOURLY"
    case Minutely => "MINUTELY"
    case Secondly => "SECONDLY"
    case OtherFreq(n) => n
  }

  /** Reading a combo id as a frequency loses nothing: its name gives the id back. */
  lemma FreqNameOf(name: string)
    ensures FreqName(FreqOf(name)) == name
  {
  }

  /** The last of `occs` repeats every `interval` periods comes (occs-1)*interval periods after the first. */
  function Span(occs: int, interval: int): int {
    (occs - 1) * interval
  }

  /**
   * `_sync_rep_ends_from_occs`: the end date that the occurrence count
   * implies. A yearly repeat from 29 February or on a weekday of the month,
   * and a monthly one from day 29 or later or on a weekday, are handed to
   * the rule library; other frequencies leave the end alone.
   */
  function RepEndFromOccs(rtype: Freq, stdt: Option<Date>, occs: int, interval: int,
                          repeatonYear: int, repeatonMonth: int): (r: EndSync)
    requires stdt.Some? ==> Valid(stdt.value)
    ensures r.SetEnd? ==> Valid(r.end) && stdt.Some?
    ensures stdt.None? || rtype.OtherFreq? ==> r == NoChange
    ensures r.ByRuleLibrary? <==>
      stdt.Some? &&
      ((rtype.Yearly? && ((stdt.value.day == 29 && stdt.value.month == 2) || repeatonYear > 0))
       || (rtype.Monthly? && (stdt.value.day >= 29 || repeatonMonth > 0)))
  {
    match stdt
    case None => NoChange
    case Some(st) =>
      var span := Span(occs, interval);
      match rtype
      case Yearly =>
        if (st.day == 29 && st.month == 2) || repeatonYear > 0 then ByRuleLibrary
        else SetEnd(AddMonths(st, 12 * span))
      case Monthly =>
        if st.day >= 29 || repeatonMonth > 0 then ByRuleLibrary
        else SetEnd(AddMonths(st, span))
      case Weekly => SetEnd(AddDays(st, span * 7))
      case Daily => SetEnd(AddDays(st, span))
      case Hourly => SetEnd(AddDays(st, span / 24))
      case Minutely => SetEnd(AddDays(st, span / (24 * 60)))
      case Secondly => SetEnd(AddDays(st, span / (24 * 60 * 60)))
      case OtherFreq(_) => NoChange
  }

  /** Weekly and daily ends lie exactly span weeks or span days after the start. */
  lemma RepEndDays(rtype: Freq, st: Date, occs: int, interval: int, ry: int, rm: int)
    requires Valid(st) && (rtype.Weekly? || rtype.Daily?)
    ensures var r := RepEndFromOccs(rtype, Some(st), occs, interval, ry, rm);
      r.SetEnd? && Ordinal(r.end) == Ordinal(st) + Span(occs, interval) * (if rtype.Weekly? then 7 else 1)
  {
  }

  /** A sub-day repeat's end is the start date moved by the whole days the span covers. */
  lemma RepEndSubday(rtype: Freq, st: Date, occs: int, interval: int, ry: int, rm: int)
    requires Valid(st) && (rtype.Hourly? || rtype.Minutely? || rtype.Secondly?)
    ensures var r := RepEndFromOccs(rtype, Some(st), occs, interval, ry, rm);
      var perDay := if rtype.Hourly? then 24 else if rtype.Minutely? then 24 * 60 else 24 * 60 * 60;
      r.SetEnd? && Ordinal(r.end) == Ordinal(st) + Span(occs, interval) / perDay
  {
  }

  /** A monthly end keeps the day of the month, span months on. */
  lemma RepEndMonthly(st: Date, occs: int, interval: int, ry: int, rm: int)
    requires Valid(st) && st.day < 29 && rm <= 0
    ensures var r := RepEndFromOccs(Monthly, Some(st), occs, interval, ry, rm);
      r.SetEnd? && r.end.day == st.day && MonthIndex(r.end) == MonthIndex(st) + Span(occs, interval)
  {
  }

  /** A yearly end is the same day and month, span years on. */
  lemma RepEndYearly(st: Date, occs: int, interval: int, ry: int, rm: int)
    requires Valid(st) && !(st.day == 29 && st.month == 2) && ry <= 0
    ensures RepEndFromOccs(Yearly, Some(st), occs, interval, ry, rm) == SetEnd(Date(st.year + Span(occs, interval), st.month, st.day))
  {
    SameDayYearsOn(st, Span(occs, interval));
  }

  lemma SameDayYearsOn(st: Date, n: int)
    requires Valid(st) && !(st.day == 29 && st.month == 2)
    ensures AddMonths(st, 12 * n) == Date(st.year + n, st.month, st.day)
  {
    var t := st.year * 12 + st.month - 1 + 12 * n;
    assert t == (st.year + n) * 12 + (st.month - 1);
    assert t / 12 == st.year + n && t % 12 == st.month - 1;
    var r := AddMonths(st, 12 * n);
    assert r.year == st.year + n && r.month == st.month;
  }

  // ---------------------------------------------------------------------
  // The repeat fields built from the dialog

  /** The ids of the repeat-on combos' choices. */
  datatype RepeatOnChoice = Std | FromEnd | OnWeekday | OnWeekdayFromEnd

  /** The BYDAY, BYMONTH and BYMONTHDAY strings `_fillin_repeatinfo` builds, or None for each left unset. */
  datatype RepeatOn = RepeatOn(byday: Option<string>, bymonth: Option<string>, bymonthday: Option<string>)

  function RepeatOnFields(reptype: Freq, repon: RepeatOnChoice, dt: Option<Date>): (r: RepeatOn)
    requires dt.Some? ==> Valid(dt.value)
    ensures dt.None? ==> r == RepeatOn(None, None, None)
    ensures r.byday.Some? <==> dt.Some? && (reptype.Yearly? || reptype.Monthly?) && (repon.OnWeekday? || repon.OnWeekdayFromEnd?)
    ensures r.byday.Some? ==>
      r.byday.value == ByDayString(if repon.OnWeekday? then WeekdayCountInMonth(dt.value) else WeekdayFromEndInMonth(dt.value), dt.value)
    ensures r.bymonth.Some? <==> r.byday.Some? && reptype.Yearly?
    ensures r.bymonth.Some? ==> r.bymonth.value == IntString(dt.value.month)
    ensures r.bymonthday.Some? <==> dt.Some? && reptype.Monthly? && repon.FromEnd?
    ensures r.bymonthday.Some? ==> r.bymonthday.value == IntString(MonthDayFromEnd(dt.value))
  {
    match dt
    case None => RepeatOn(None, None, None)
    case Some(d) =>
      var byday :=
        match repon
        case OnWeekday => Some(ByDayString(WeekdayCountInMonth(d), d))
        case OnWeekdayFromEnd => Some(ByDayString(WeekdayFromEndInMonth(d), d))
        case _ => None;
      match reptype
      case Yearly => RepeatOn(byday, if byday.Some? then Some(IntString(d.month)) else None, None)
      case Monthly => RepeatOn(byday, None, if repon.FromEnd? then Some(IntString(MonthDayFromEnd(d))) else None)
      case _ => RepeatOn(None, None, None)
  }

  // ---------------------------------------------------------------------
  // Alarm offsets

  /** `_alarmlist_add_to_current_row`: the offset moves by d but never past the entry's own time. */
  function AdjustAlarm(tdelta: int, d: int): (r: int)
    ensures r <= 0 && r <= tdelta + d
    ensures tdelta + d <= 0 ==> r == tdelta + d
  {
    if tdelta + d < 0 then tdelta + d else 0
  }

  // ---------------------------------------------------------------------
  // Sorting a set of dates

  predicate StrictlySorted(s: seq<Date>) {
    (forall a :: 0 <= a < |s| ==> Valid(s[a]))
    && forall a, b :: 0 <= a < b < |s| ==> Ordinal(s[a]) < Ordinal(s[b])
  }

  /** Every finite set of dates has an earliest one. */
  lemma {:induction false} Earliest(s: set<Date>) returns (m: Date)
    requires s != {} && forall x :: x in s ==> Valid(x)
    ensures m in s && forall x :: x in s ==> Ordinal(m) <= Ordinal(x)
    decreases |s|
  {
    var y :| y in s;
    if s - {y} == {} {
      assert s == {y};
      m := y;
    } else {
      var m' := Earliest(s - {y});
      m := if Ordinal(y) < Ordinal(m') then y else m';
    }
  }

  /** `sorted(dates)` for a set of dates: each date once, earliest first. */
  method SortDates(dates: set<Date>) returns (r: seq<Date>)
    requires forall x :: x in dates ==> Valid(x)
    ensures StrictlySorted(r)
    ensures forall x :: x in r <==> x in dates
  {
    r := [];
    var left := dates;
    while left != {}
      invariant left <= dates && StrictlySorted(r)
      invariant forall x :: x in dates <==> x in r || x in left
      invariant forall x, a :: x in left && 0 <= a < |r| ==> Ordinal(r[a]) < Ordinal(x)
      decreases |left|
    {
      ghost var w := Earliest(left);
      var m :| m in left && forall x :: x in left ==> Ordinal(m) <= Ordinal(x);
      forall x | x in left - {m}
        ensures Ordinal(m) < Ordinal(x)
      {
        if Ordinal(m) == Ordinal(x) {
          OrdinalInjective(m, x);
        }
      }
      r := r + [m];
      left := left - {m};
    }
  }

  /** The dates of all EXDATE values, with the time of day dropped. */
  function ExceptionDates(lists: seq<seq<Moment>>): (r: set<Date>)
    requires ExDatesValid(lists)
    ensures forall d :: d in r ==> Valid(d)
    ensures forall d :: d in r <==> exists i, j :: 0 <= i < |lists| && 0 <= j < |lists[i]| && lists[i][j].date == d
  {
    set i, j | 0 <= i < |lists| && 0 <= j < |lists[i]| :: lists[i][j].date
  }

  /** Each date as a date value, or at the time of day when there is one. */
  function AsMoments(dates: seq<Date>, tm: Option<int>): (r: seq<Moment>)
    requires tm.Some? ==> 0 <= tm.value < DayUs
    ensures |r| == |dates|
    ensures forall a :: 0 <= a < |dates| ==> r[a].date == dates[a] && (r[a].TimeM? <==> tm.Some?)
    ensures forall a :: 0 <= a < |dates| && r[a].TimeM? ==> r[a].us == tm.value
  {
    match tm
    case None => seq(|dates|, a requires 0 <= a < |dates| => DateM(dates[a]))
    case Some(t) => seq(|dates|, a requires 0 <= a < |dates| => TimeM(dates[a], t))
  }

  // ---------------------------------------------------------------------
  // The event dialog's state

  class EventDialogController {
    /** The repeat exception dates, sorted and without duplicates. */
    var exceptionList: seq<Date>
    var repOccsDeterminesEnd: bool
    var durDeterminesEnd: bool
    /** The date in the repeat end-date widget. */
    var repEndDate: Option<Date>
    var alarmList: seq<AlarmInfo>
    /** The selected row of the alarm list, if any. */
    var alarmRow: Option<int>

    constructor ()
      ensures exceptionList == [] && repOccsDeterminesEnd && !durDeterminesEnd
      ensures repEndDate.None? && alarmList == [] && alarmRow.None?
    {
      exceptionList := [];
      repOccsDeterminesEnd := true;
      durDeterminesEnd := false;
      repEndDate := None;
      alarmList := [];
      alarmRow := None;
    }

    /**
     * `_set_rep_exception_list`: the dates of the event's EXDATE values,
     * sorted and each once; empty when there is no event, no RRULE or no
     * EXDATE.
     */
    method SetRepExceptionList(event: Option<map<string, Value>>)
      requires event.Some? ==> WellTyped(event.value)
      modifies this
      ensures StrictlySorted(exceptionList)
      ensures event.None? || "RRULE" !in event.value || "EXDATE" !in event.value ==> exceptionList == []
      ensures event.Some? && "RRULE" in event.value && "EXDATE" in event.value ==>
        forall d :: d in exceptionList <==> d in ExceptionDates(event.value["EXDATE"].lists)
      ensures repEndDate == old(repEndDate) && alarmList == old(alarmList) && alarmRow == old(alarmRow)
      ensures repOccsDeterminesEnd == old(repOccsDeterminesEnd) && durDeterminesEnd == old(durDeterminesEnd)
    {
      exceptionList := [];
      if event.None? || "RRULE" !in event.value || "EXDATE" !in event.value {
        return;
      }
      exceptionList := SortDates(ExceptionDates(event.value["EXDATE"].lists));
    }

    /**
     * `_sync_rep_ends_from_occs`, given the widgets' start date, counts and
     * repeat-on choices. `libLast` is the last occurrence of the rule the
     * library expands (`_sync_rep_end_from_occ_rrule`), None when no rule
     * could be built; the end date becomes it when the case is handed over.
     */
    method SyncRepEndsFromOccs(rtype: Freq, stdt: Option<Date>, occsText: string, intervalText: string,
                               repeatonYear: int, repeatonMonth: int, libLast: Option<Date>) returns (sync: EndSync)
      requires stdt.Some? ==> Valid(stdt.value)
      modifies this`repEndDate
      ensures sync == RepEndFromOccs(rtype, stdt, PositiveOrOne(occsText), PositiveOrOne(intervalText), repeatonYear, repeatonMonth)
      ensures sync.SetEnd? ==> repEndDate == Some(sync.end)
      ensures sync.ByRuleLibrary? && libLast.Some? ==> repEndDate == libLast
      ensures sync.NoChange? || (sync.ByRuleLibrary? && libLast.None?) ==> repEndDate == old(repEndDate)
      ensures exceptionList == old(exceptionList) && alarmList == old(alarmList) && alarmRow == old(alarmRow)
      ensures repOccsDeterminesEnd == old(repOccsDeterminesEnd) && durDeterminesEnd == old(durDeterminesEnd)
    {
      sync := RepEndFromOccs(rtype, stdt, PositiveOrOne(occsText), PositiveOrOne(intervalText), repeatonYear, repeatonMonth);
      if sync.SetEnd? {
        repEndDate := Some(sync.end);
      } else if sync.ByRuleLibrary? && libLast.Some? {
        repEndDate := libLast;
      }
    }

    /**
     * `_get_exceptions_list_for_type`: None when there are no exceptions;
     * for a timed entry with a time, each date at that time; else the dates.
     */
    function ExceptionsForType(timed: bool, tm: Option<int>): (r: Option<seq<Moment>>)
      reads this
      requires tm.Some? ==> 0 <= tm.value < DayUs
      ensures r.None? <==> |exceptionList| == 0
      ensures r.Some? ==> |r.value| == |exceptionList|
      ensures r.Some? ==>
        forall a :: 0 <= a < |exceptionList| ==>
          r.value[a].date == exceptionList[a]
          && (r.value[a].TimeM? <==> timed && tm.Some?)
          && (r.value[a].TimeM? ==> r.value[a].us == tm.value)
    {
      if |exceptionList| == 0 then None
      else Some(AsMoments(exceptionList, if timed then tm else None))
    }

    /**
     * `_fillin_repeatinfo`: hands the repeat type, interval, repeat-on
     * fields, the end (a count or an until date unless the repeat is
     * forever) and the exceptions to the entry details.
     */
    method FillinRepeatinfo(ei: EntryInfo, reptype: Option<string>, intervalText: string, occsText: string,
                            forever: bool, repon: RepeatOnChoice, dt: Option<Date>, timed: bool, tm: Option<int>)
      requires ei.Valid() && (dt.Some? ==> Valid(dt.value)) && (tm.Some? ==> 0 <= tm.value < DayUs)
      requires repEndDate.Some? ==> Valid(repEndDate.value)
      modifies ei`repType, ei`repInter, ei`repCount, ei`repUntil
      modifies ei`repByday, ei`repBymonth, ei`repBymonthday, ei`repExceptions
      ensures ei.Valid()
      ensures reptype.None? ==> ei.Snapshot() == old(ei.Snapshot())
      ensures reptype.Some? ==>
        var on := RepeatOnFields(FreqOf(reptype.value), repon, dt);
        ei.repType == reptype && ei.repInter == PositiveOrOne(intervalText)
        && ei.repByday == on.byday && ei.repBymonth == on.bymonth && ei.repBymonthday == on.bymonthday
        && ei.repCount == (if !forever && repOccsDeterminesEnd then Some(PositiveOrOne(occsText)) else None)
        && ei.repUntil == (if !forever && !repOccsDeterminesEnd && repEndDate.Some? then Some(DateM(repEndDate.value)) else None)
        && ei.repExceptions == ExceptionsForType(timed, tm)
    {
      if reptype.Some? {
        var inter := PositiveOrOne(intervalText);
        var on := RepeatOnFields(FreqOf(reptype.value), repon, dt);
        var count: Option<int> := None;
        var until: Option<Moment> := None;
        if !forever {
          if repOccsDeterminesEnd {
            count := Some(PositiveOrOne(occsText));
          } else if repEndDate.Some? {
            until := Some(DateM(repEndDate.value));
          }
        }
        ei.SetRepeatInfo(reptype.value, Some(inter), count, until, on.byday, on.bymonth, on.bymonthday,
                         ExceptionsForType(timed, tm));
      }
    }

    /** `_alarmlist_add_to_current_row`: moves the selected alarm by d, never to after the entry. */
    method AlarmlistAddToCurrentRow(d: int)
      modifies this`alarmList
      ensures alarmRow.Some? && 0 <= alarmRow.value < |old(alarmList)| ==>
        var k := alarmRow.value;
        alarmList == old(alarmList)[k := old(alarmList)[k].(tdelta := AdjustAlarm(old(alarmList)[k].tdelta, d))]
      ensures !(alarmRow.Some? && 0 <= alarmRow.value < |old(alarmList)|) ==> alarmList == old(alarmList)
      ensures alarmRow == old(alarmRow) && exceptionList == old(exceptionList) && repEndDate == old(repEndDate)
      ensures repOccsDeterminesEnd == old(repOccsDeterminesEnd) && durDeterminesEnd == old(durDeterminesEnd)
      ensures (forall a :: 0 <= a < |old(alarmList)| ==> old(alarmList)[a].tdelta <= 0) ==>
        forall a :: 0 <= a < |alarmList| ==> alarmList[a].tdelta <= 0
    {
      if alarmRow.Some? && 0 <= alarmRow.value < |alarmList| {
        var k := alarmRow.value;
        alarmList := alarmList[k := alarmList[k].(tdelta := AdjustAlarm(alarmList[k].tdelta, d))];
      }
    }
  }

  /** The rows of the exception-dates sub-dialog never hold a date twice. */
  predicate Distinct(s: seq<Date>) {
    forall a, b :: 0 <= a < b < |s| ==> s[a] != s[b]
  }

  class ExceptionsDialogController {
    /** The dates in the list, one per row. */
    var rows: seq<Date>
    /** The rows selected after the last action. */
    var selected: set<int>
    /** Whether the date field shows the error style. */
    var dateError: bool

    /** The list starts with each given date once. */
    constructor (exDates: seq<Date>)
      ensures Distinct(rows) && (forall d :: d in rows <==> d in exDates)
      ensures selected == {} && !dateError
    {
      var r: seq<Date> := [];
      var n := 0;
      while n < |exDates|
        invariant 0 <= n <= |exDates| && Distinct(r)
        invariant forall d :: d in r <==> d in exDates[..n]
      {
        assert exDates[..n + 1] == exDates[..n] + [exDates[n]];
        if exDates[n] !in r {
          r := r + [exDates[n]];
        }
        n := n + 1;
      }
      assert exDates[..n] == exDates;
      rows := r;
      selected := {};
      dateError := false;
    }

    /** `get_dates`: the set of listed dates. */
    function GetDates(): (r: set<Date>)
      reads this
      ensures forall d :: d in r <==> d in rows
    {
      set d | d in rows
    }

    /**
     * `_add_date`: an invalid date only marks the field; otherwise the
     * selection is cleared and then holds only the date's row, which is the
     * row already listing it or a new row at the end.
     */
    method AddDate(dt: Option<Date>)
      requires Distinct(rows)
      modifies this
      ensures Distinct(rows)
      ensures dt.None? ==> rows == old(rows) && dateError && selected == old(selected)
      ensures dt.Some? ==> GetDates() == old(GetDates()) + {dt.value}
      ensures dt.Some? && dt.value in old(rows) ==> rows == old(rows)
      ensures dt.Some? && dt.value !in old(rows) ==> rows == old(rows) + [dt.value]
      ensures dt.Some? ==> exists k :: k in selected && 0 <= k < |rows| && rows[k] == dt.value
      ensures dt.Some? ==> exists k :: 0 <= k < |rows| && rows[k] == dt.value && selected == {k}
      ensures dt.Some? ==> dateError == old(dateError)
    {
      if dt.None? {
        dateError := true;
        return;
      }
      selected := {};
      var n := 0;
      while n < |rows|
        invariant 0 <= n <= |rows| && forall k :: 0 <= k < n ==> rows[k] != dt.value
      {
        if dt.value == rows[n] {
          selected := {n};
          return;
        }
        n := n + 1;
      }
      rows := rows + [dt.value];
      selected := {|rows| - 1};
    }
  }
}
