# pygenda core in Dafny

A model of the date, recurrence and cursor logic of pygenda, a GTK agenda
application for calendars stored as iCalendar (RFC 5545) data, with proofs
of what that logic promises.

- **Dates** (`dates.dfy`): proleptic Gregorian dates, day ordinals,
  weekdays, day and month arithmetic. A naive datetime is a date plus
  microseconds since midnight. `Key` orders dates and datetimes the way
  `dt_lt`/`dt_lte` do.
- **Recurrence engine** (`recur_rule.dfy`, `recur_iter.dfy`):
  - `RepeatInfo` reduces an RRULE to one of four forms: a fixed step, a
    step in months, a cycle of day gaps (multi-day WEEKLY), or the n-th
    weekday of a month.
  - It computes the exclusive stop bound from UNTIL or COUNT, and filters
    EXDATEs.
  - The three `RepeatIter_*` iterators become one class. It is proved to
    emit exactly the candidates that are not excluded and lie before the
    stop, in increasing order.
- **Calendar layer** (`calendar.dfy`):
  - connector flags;
  - field updates and STATUS toggling (section 3.8.1.11 of RFC 5545);
  - DTEND/DURATION building and the day-crossing test;
  - `occurrence_list`, with its bisect and its in-place splice of sorted
    repeats.
- **Entry details and dialogs** (`entryinfo.dfy`, `dialog_event.dfy`,
  `widgets.dfy`): the setters of `EntryInfo`, the event dialog's repeat
  arithmetic and exception list, and the entry widgets' clamping, wrap-around
  and conversions.
- **Views** (`view.dfy`, `view_year.dfy`, `view_week.dfy`, `view_todo.dfy`,
  `gui.dfy`):
  - the grid and cursor arithmetic of the year, week and to-do views;
  - icon and marker choice, scrolling and hit testing;
  - view switching, paste sanitising and the date-order setting.
- **Settings and tools** (`config.dfy`, `yearicons.dfy`, `util.dfy`,
  `durations.dfy`):
  - the configuration store;
  - the year-view icon stylesheet generator;
  - week arithmetic and `parse_timedelta`.

Mutable state is modelled as classes whose methods are proved against
specification functions: the calendar's cached lists, `EntryInfo`, the
cursors of the views, the configuration and the widgets. The pure
computations are functions with lemmas. Text is `seq<char>`. The iCalendar
object model is reduced to a map from property name to a typed value
(`entries.dfy`).

## Model

| member | source | states |
|---|---|---|
| Dates.DaysInMonth | pygenda/pygenda_calendar.py:1679 | `monthrange(y, m)[1]`: 28 to 31 days, 29 exactly for February of a leap year and 28 exactly for February otherwise |
| Dates.Weekday | pygenda/pygenda_calendar.py:1481 | `weekday()` is 0..6 |
| Dates.WeekdayOfOrdinal | pygenda/pygenda_calendar.py:1677-1680 | weekdays advance with the day count modulo 7 |
| Dates.OrdinalOrder | pygenda/pygenda_dialog_event.py:1585-1586 | `toordinal` orders dates as Python compares them and is injective |
| Dates.NextDay | pygenda/pygenda_calendar.py:661 | `+ timedelta(days=1)` gives a valid date one day on |
| Dates.AddDays | pygenda/pygenda_view_week.py:186 | adding n days gives a valid date n days on |
| Dates.AddDaysAdd | pygenda/pygenda_view_week.py:186 | adding a days then b days is adding a+b days |
| Dates.AddMonths | pygenda/pygenda_calendar.py:1447 | `relativedelta(months=k)` moves the month index by k and clips the day to the new month's length |
| Dates.AddUs | pygenda/pygenda_calendar.py:1725 | adding a timedelta to a datetime moves its key by the delta; on a date only whole days count |
| Dates.AddUsAdd | pygenda/pygenda_calendar.py:1725 | two timedelta additions compose |
| Text.ParseIntString | pygenda/pygenda_widgets.py:280-287 | `int(str(n))` gives n back |
| Text.ParsePadded | pygenda/pygenda_widgets.py:216-221 | `int` of a zero-padded number gives the number back |
| Text.Join | tools/make_css_yearicons.py:42 | `sep.join`: one part joins to itself; that joining the parts of a split gives the text back is stated by `Text.JoinSplit`, and that splitting a join gives the parts back by `YearIcons.SplitJoin` |
| Text.Split | pygenda/pygenda_view_todo.py:264 | at least one part, and no part holds the separator |
| Text.JoinSplit | pygenda/pygenda_view_todo.py:264 | joining the parts of a split with the separator gives the text back |
| Text.Strip | pygenda/pygenda_gui.py:876 | the result is no longer than the text and starts and ends with a non-space |
| Text.StripPiece | pygenda/pygenda_gui.py:876 | what `strip` keeps is a piece of the text with only whitespace before and after it |
| Util.DatetimeToDate | pygenda/pygenda_util.py:34-39 | the result is a date on the same day as the input, at or before it and less than a day earlier; a date comes back unchanged |
| Util.DateToDatetime | pygenda/pygenda_util.py:61-68 | a date becomes the datetime at its midnight, with the same key; a datetime comes back unchanged (no time zone) |
| Util.DtLt | pygenda/pygenda_util.py:181-189 | true exactly when the first moment's key is smaller; for two dates it is Python's lexicographic date `<` |
| Util.DtLte | pygenda/pygenda_util.py:170-178 | true exactly when the first key is not larger; for two dates it is `<` or equality |
| Util.DtLteNotLt | pygenda/pygenda_util.py:170-189 | `dt_lte(a, b)` is `not dt_lt(b, a)` for every pair of dates or datetimes |
| Util.DayInWeek | pygenda/pygenda_util.py:156-161 | the result lies in 0..6 and start_week_day plus the result is the weekday, modulo 7 |
| Util.StartOfWeek | pygenda/pygenda_util.py:164-167 | the start of week is at or before dt and at most 6 days earlier, keeps dt's time of day, lies day_in_week(dt) days earlier, and has day_in_week 0 |
| Util.DayInWeekShift | pygenda/pygenda_util.py:156-167 | the day i days after a week's first day has day_in_week i, for i in 0..6 |
| Util.StartOfWeekSame | pygenda/pygenda_util.py:164-167 | every day of a week has the same start of week |
| Util.StartEndDtsEvent | pygenda/pygenda_util.py:71-81 | the start is DTSTART; the end is DTEND when present, else DTSTART + DURATION (to the microsecond for a datetime start, whole days only for a date start), else None |
| Util.OrderScan | pygenda/pygenda_util.py:207-218 | the letters the scan collects are all Y, M or D, and no two neighbours are equal |
| Util.GuessDateOrder | pygenda/pygenda_util.py:202-219 | the loop returns the scan's letters when there are exactly 3 of them, else 'YMD'; either way 3 letters over {Y, M, D} |
| Util.Clamp | pygenda/pygenda_view_todo.py:276-280 | an index already in 0..count-1 is kept; any other index goes to count-1; with no items the result is 0 |
| Util.ClampIdempotent | pygenda/pygenda_view_todo.py:276-280 | clamping a clamped index changes nothing |
| Durations.FirstUnit | pygenda/pygenda_util.py:279-283 | the inner scan stops at the first unit letter (d, h, m or s), or at the end of the text when there is none |
| Durations.PairUs | pygenda/pygenda_util.py:284-288 | a number-unit pair is worth its number of units, and nothing when the text before the unit is not an integer |
| Durations.ParseTimedelta | pygenda/pygenda_util.py:266-290 | the loop computes the reference sum of pairs over the lower-cased text |
| Durations.SumPairs | pygenda/pygenda_util.py:276-290 | the outer loop's total is the reference sum of the text's number-unit pairs |
| Durations.FindUnit | pygenda/pygenda_util.py:279-283 | the index found is the first unit letter at or after i, or the end of the text |
| Durations.NextPair | pygenda/pygenda_util.py:284-289 | one round: a non-integer number ends the parse with nothing more added; otherwise the pair's value is added to what the rest gives |
| Durations.DurationOfPair | pygenda/pygenda_util.py:266-290 | a number followed by a unit adds that many units to the value of the rest ("1h30m" is 90 minutes) |
| Durations.DurationOfBareUnit | pygenda/pygenda_util.py:284-287 | a unit with no number before it stops the parse |
| Durations.DurationOfTrailingNumber | pygenda/pygenda_util.py:280-283 | a trailing number with no unit after it adds nothing |
| Calendar.IsReadonly | pygenda/pygenda_calendar.py:60-62 | true exactly when the READONLY bit (1) of the flags is set |
| Calendar.StoresEvents | pygenda/pygenda_calendar.py:64-66 | true exactly when the TYPE_EVENT bit (2) is set |
| Calendar.StoresTodos | pygenda/pygenda_calendar.py:68-70 | true exactly when the TYPE_TODO bit (4) is set |
| Calendar.FlagsIndependent | pygenda/pygenda_calendar.py:54-70 | TYPE_ALL stores both kinds and is writable; adding READONLY to any flags leaves the two type tests unchanged |
| Calendar.DelEntryField | pygenda/pygenda_calendar.py:613-617 | the property is removed when present, and nothing else changes |
| Calendar.UpdateEntryField | pygenda/pygenda_calendar.py:620-629 | the property is replaced by the value, or removed when the value is None; nothing else changes |
| Calendar.AddStatus | pygenda/pygenda_calendar.py:812-826 | STATUS is stored exactly when it is allowed for the component. COMPLETED drops PERCENT-COMPLETE. Any other status drops the COMPLETED date and lowers a PERCENT-COMPLETE of 100 to 99. Every other property is kept |
| Calendar.Stamped | pygenda/pygenda_calendar.py:633-643 | DTSTAMP and LAST-MODIFIED hold the edit time; every other property is kept |
| Calendar.ToggleStatus | pygenda/pygenda_calendar.py:794-809 | an error exactly for a read-only calendar; no change exactly when there is no status and None is asked for; otherwise STATUS is set exactly when the asked status is allowed and differs from the current one, and both stamps are updated |
| Calendar.ToggleTwiceClears | pygenda/pygenda_calendar.py:799-802 | setting an allowed status and then the same status again leaves no status |
| Calendar.ToggleKeepsOthers | pygenda/pygenda_calendar.py:794-826 | toggling never changes a property other than the status fields and the two stamps |
| Calendar.EndAfterTime | pygenda/pygenda_calendar.py:658-663 | an end time of day becomes a datetime with that time, strictly after the start and less than a day later |
| Calendar.TimedField | pygenda/pygenda_calendar.py:654-668 | for a timed start: DTEND for an end datetime after the start or an end time different from the start's, else DURATION for a positive duration when no end is given |
| Calendar.DayField | pygenda/pygenda_calendar.py:669-677 | for a date start: DTEND for an end date not before the start, else DURATION for whole days; an end datetime is an error, as comparing a datetime with a date is |
| Calendar.EndDurFieldSound | pygenda/pygenda_calendar.py:646-677 | whatever is added is consistent with the start: a DTEND is never before it (strictly after for timed starts), a duration is positive for timed starts and whole days for day starts |
| Calendar.EventAddEndDur | pygenda/pygenda_calendar.py:646-677 | the event gains exactly the one property chosen, or nothing, and on an error it is unchanged |
| Calendar.IsXoverEntry | pygenda/pygenda_calendar.py:866-886 | true exactly when the event has an end (DTEND, or DTSTART + DURATION) after the midnight that ends its start day |
| Calendar.Pairs | pygenda/pygenda_calendar.py:1806-1808 | one (ev, dt) pair per repeat, in order |
| Calendar.MergeInterleaves | pygenda/pygenda_calendar.py:1797-1808 | the merged list has len(target)+len(repeats) elements; at the positions not holding a repeat it reads as the original list in order, and at the others as the repeats in order |
| Calendar.MergePermutation | pygenda/pygenda_calendar.py:1797-1808 | the merged list is a permutation of the original list plus the new (ev, dt) pairs |
| Calendar.MergeMembers | pygenda/pygenda_calendar.py:1797-1808 | every element of the merge is an original element or a repeat of ev |
| Calendar.MergeSorted | pygenda/pygenda_calendar.py:1785-1808 | merging sorted repeats into a sorted list gives a sorted list |
| Calendar.MergeInto | pygenda/pygenda_calendar.py:1797-1808 | the in-place insertion loop builds exactly the reference merge |
| Calendar.RepeatsOrStart | pygenda/pygenda_calendar.py:1789-1796 | the repeats are those repeats_in_range gives, or the fallback's, or, for a rule that raises ValueError, DTSTART alone when it is in [start, stop) |
| Calendar.MergeRepeatingEntriesSort | pygenda/pygenda_calendar.py:1785-1808 | the result is the merge of those repeats, holding exactly the original elements plus one occurrence of ev per repeat; it adds only occurrences of ev and is sorted when the target was |
| Calendar.InRange | pygenda/pygenda_calendar.py:889-915 | at most as long as the list |
| Calendar.InRangeMembers | pygenda/pygenda_calendar.py:889-915 | an occurrence is in the range list exactly when it is in the list and start <= its moment < stop |
| Calendar.SortedSlice | pygenda/pygenda_calendar.py:896-915 | in a sorted list, the occurrences in range are the slice between the bisect index and the first event at or after stop |
| Calendar.SingleOccurrences | pygenda/pygenda_calendar.py:895-915 | the single-event part is exactly the events with start <= DTSTART < stop, in sorted order |
| Calendar.BisectStart | pygenda/pygenda_calendar.py:898-906 | the bisect returns the first index whose DTSTART is not before start |
| Calendar.TakeBefore | pygenda/pygenda_calendar.py:908-915 | the taking loop returns the events from that index while they start before stop, and stops at the first that does not |
| Calendar.MergeAllRepeating | pygenda/pygenda_calendar.py:916-919 | splicing each repeating event in turn keeps the list sorted, and the result holds exactly the base list plus, for each event, one occurrence per repeat `merge_repeating_entries_sort` gives it (counted with multiplicity) |
| Calendar.AllPairsMembers | pygenda/pygenda_calendar.py:916-919 | every repeat of every repeating event is among the occurrences spliced in |
| Calendar.FromEarlierOrNth | pygenda/pygenda_calendar.py:916-919 | after event n is spliced in, every occurrence comes from the base list or from events 0..n |
| Calendar.Calendar.CalendarReadonly | pygenda/pygenda_calendar.py:286-290 | the read-only flag of the connector that stores the entry |
| Calendar.Calendar.SetToggleStatus | pygenda/pygenda_calendar.py:794-809 | the entry's new properties are those ToggleStatus computes; on an error or a no-op they are unchanged |
| Calendar.Calendar.OccurrenceList | pygenda/pygenda_calendar.py:889-920 | the list is sorted; it contains every single event in range when single events are asked for; with no repeats asked for it is exactly those single events; every element is a single event in range or an occurrence of a repeating event; with repeats asked for, it holds exactly the single events (if asked for) plus one occurrence per repeat of each repeating event |
| RecurRule.DayIndex | pygenda/pygenda_calendar.py:1461 | `DAY_ABBR.index`: a found index is in 0..6 and names the abbreviation; None exactly when no weekday has that abbreviation |
| RecurRule.FirstdayTo | pygenda/pygenda_calendar.py:1670-1685 | from the first of a month, the result is in the same month, falls on the asked weekday, and is the idx-th such weekday counted from the start (idx > 0) or from the end (idx < 0) |
| RecurRule.ByWeekdayDay | pygenda/pygenda_calendar.py:1676-1684 | the day-of-month arithmetic: the day lies in 1..days-in-month, has the asked weekday, and is in the idx-th week from the start or the end of the month |
| RecurRule.FirstdayToM | pygenda/pygenda_calendar.py:1670-1685 | on a date or datetime: the month and the time of day are kept |
| RecurRule.FirstOfMonthM | pygenda/pygenda_calendar.py:1588 | `replace(day=1)`: the first of the same month, with the same time of day |
| RecurRule.AddMonthsM | pygenda/pygenda_calendar.py:1447 | adding a relativedelta of k months moves the month index by exactly k and keeps the time of day |
| RecurRule.WeeklyDeltas | pygenda/pygenda_calendar.py:1499-1516 | the rotating-bit loop emits exactly the reference gap list `WeeklyCycle` |
| RecurRule.WeeklyCycleSum | pygenda/pygenda_calendar.py:1507-1516 | the gaps of one turn of the loop add up to INTERVAL weeks, so a cycle ends on the DTSTART weekday INTERVAL weeks later |
| RecurRule.WeeklyCyclePositive | pygenda/pygenda_calendar.py:1507-1516 | every gap is at least one day |
| RecurRule.WeeklyCycleLength | pygenda/pygenda_calendar.py:1507-1516 | one gap per selected weekday that the rotation lands on |
| RecurRule.WeeklyCycleLands | pygenda/pygenda_calendar.py:1507-1516 | walking the gaps from the DTSTART weekday lands on a selected weekday after each gap |
| RecurRule.WeeklyCycleOk | pygenda/pygenda_calendar.py:1477-1516 | when DTSTART's weekday is selected, the gap list is a usable cycle whose first occurrence is DTSTART and whose period is INTERVAL weeks |
| RecurRule.DayMask | pygenda/pygenda_calendar.py:1482-1487 | the mask exists exactly when every BYDAY entry is a weekday abbreviation, and then holds exactly the listed weekdays |
| RecurRule.WeeklyForm | pygenda/pygenda_calendar.py:1477-1516 | an unknown BYDAY is unsupported; listed days that miss DTSTART's weekday raise ValueError; a single day gives a step of 7*INTERVAL days; a cycle sums to INTERVAL weeks; every form found starts at DTSTART |
| RecurRule.SetWeekly | pygenda/pygenda_calendar.py:1477-1516 | the method computes exactly `WeeklyForm` |
| RecurRule.ByWeekdayForm | pygenda/pygenda_calendar.py:1454-1474 | success needs one BYDAY entry whose weekday and index parse, and gives a by-weekday form whose first occurrence is DTSTART; an index of 0 or of magnitude above 5 is impossible, and every other failure is unsupported |
| RecurRule.FreqForm | pygenda/pygenda_calendar.py:1377-1536 | every form `_set_freq` accepts is usable and has DTSTART as its first occurrence |
| RecurRule.FreqFormAccepts | pygenda/pygenda_calendar.py:1377-1428 | acceptance needs INTERVAL >= 1, no unsupported BY* part and at most one BYMONTH; an unknown FREQ is refused |
| RecurRule.FreqFormBadInterval | pygenda/pygenda_calendar.py:1381-1383 | INTERVAL <= 0 raises ValueError |
| RecurRule.FreqFormShapes | pygenda/pygenda_calendar.py:1413-1536 | DAILY steps INTERVAL days; plain MONTHLY steps INTERVAL months and needs a day of month up to 28; YEARLY steps in months or is a by-weekday rule in DTSTART's month |
| RecurRule.OccGap | pygenda/pygenda_calendar.py:1706-1783 | consecutive candidates are at least a second apart, and at least a day apart unless the rule is a sub-day step |
| RecurRule.OccMono | pygenda/pygenda_calendar.py:1706-1783 | candidates are strictly increasing in their index |
| RecurRule.PosNext | pygenda/pygenda_calendar.py:1706-1783 | the k+1-th iterator position is the k-th advanced by one delta (the cycle's k-th gap for multi-delta) |
| RecurRule.MonthStepKeepsDay | pygenda/pygenda_calendar.py:1445-1451 | a month step from a day of month up to 28 never changes the day of month |
| RecurRule.ExdateSet | pygenda/pygenda_calendar.py:1547-1549 | the exdate set holds exactly the dates of all the EXDATE lists |
| RecurRule.ElemSet | pygenda/pygenda_calendar.py:1550-1552 | the exdate set of a single EXDATE holds exactly its dates |
| RecurRule.JustAfter | pygenda/pygenda_calendar.py:1630-1633 | the exclusive bound is a datetime after the inclusive UNTIL and at most a millisecond later |
| RecurRule.UntilStop | pygenda/pygenda_calendar.py:1622-1633 | no bound exactly when there is neither UNTIL nor stop; with no UNTIL the stop is used |
| RecurRule.UntilStopInclusive | pygenda/pygenda_calendar.py:1614-1633 | a millisecond-aligned moment is below the bound exactly when it is at or before UNTIL and before stop |
| RecurRule.LastByCount | pygenda/pygenda_calendar.py:1638-1648 | the last occurrence by COUNT is candidate COUNT-1 for all three delta kinds |
| RecurRule.CountStopAdmits | pygenda/pygenda_calendar.py:1634-1650 | candidate k is below the combined bound exactly when k < COUNT and it is below the earlier bound |
| RecurRule.SetStop | pygenda/pygenda_calendar.py:1614-1652 | COUNT with EXDATE is unsupported; no UNTIL, stop or COUNT is the unbounded error; no other error |
| RecurRule.SetStopAdmits | pygenda/pygenda_calendar.py:1614-1652 | candidate k is below the bound exactly when k < COUNT (if any), it is before stop (if any), and it is at or before UNTIL (if any) |
| RecurRule.CeilDiv | pygenda/pygenda_calendar.py:1606 | the ceiling of a/b for b > 0 |
| RecurRule.MonthsBetween | pygenda/pygenda_calendar.py:1609-1610 | for a target after the base, the whole months m with base + m months at or before the target and base + m+1 months after it |
| RecurRule.RangeStart | pygenda/pygenda_calendar.py:1336-1350 | the range start as a date, or as the datetime at its midnight for a timed rule |
| RecurRule.Prepare | pygenda/pygenda_calendar.py:1327-1374 | a set-up rule is usable, starts at DTSTART, is timed exactly for sub-day rules or datetime starts, and has exdates exactly when EXDATE is present |
| RecurRule.PrepareTzid | pygenda/pygenda_calendar.py:1330-1331 | a DTSTART with TZID is unsupported |
| RecurRule.PrepareBounded | pygenda/pygenda_calendar.py:1354-1374 | the range end always bounds the repeats, so the unbounded error never happens here |
| RecurRule.PrepareEmpty | pygenda/pygenda_calendar.py:1354-1360 | the early return happens exactly when stop is at or before the start, or UNTIL is before the range start (and there is no TZID) |
| RecurIter.DeltaIdx | pygenda/pygenda_calendar.py:1750-1751 | the index into the list of deltas stays in 0..len-1, and is 0 for a single delta |
| RecurIter.PastExHorizon | pygenda/pygenda_calendar.py:1655-1667 | nothing at or after the latest excluded date is excluded, so the skipping loops end |
| RecurIter.SingleJump | pygenda/pygenda_calendar.py:1598-1611 | `_do_initial_jump` for a single delta lands on a candidate, and every candidate it jumps over is before the range start |
| RecurIter.CycleJump | pygenda/pygenda_calendar.py:1564-1571 | the jump by whole cycles lands on a candidate at delta index 0, and skips only candidates before the range start |
| RecurIter.SkipToFirst | pygenda/pygenda_calendar.py:1572-1582 | the clearing loop stops at the first candidate at or after the range start that is not excluded, with the matching delta index |
| RecurIter.ByWeekdayJump | pygenda/pygenda_calendar.py:1588-1590 | for by-weekday rules, the month jump skips only months whose occurrence is before the range start |
| RecurIter.SkipEarlyMonths | pygenda/pygenda_calendar.py:1592-1593 | the first loop stops at the first month whose occurrence is at or after the range start |
| RecurIter.SkipExcludedMonths | pygenda/pygenda_calendar.py:1594-1595 | the second loop then stops at the first such month whose occurrence is not excluded |
| RecurIter.ByWeekdayFirst | pygenda/pygenda_calendar.py:1585-1595 | `_set_start_in_rng_byweekdayinmonth` finds the first kept occurrence in the range |
| RecurIter.RemainingMembers | pygenda/pygenda_calendar.py:1717-1783 | what the iterator still yields from candidate k is exactly the candidates from k on that are before the stop and not excluded |
| RecurIter.RemainingIncreasing | pygenda/pygenda_calendar.py:1717-1783 | the iterator yields strictly increasing dates |
| RecurIter.FirstRemaining | pygenda/pygenda_calendar.py:1555-1595 | from the start the set-up finds, the iterator yields, in increasing order, exactly the candidates in [start, stop) that are not excluded |
| RecurIter.RemainingSkip | pygenda/pygenda_calendar.py:1724-1727 | an excluded candidate is skipped; a kept one is yielded before the rest |
| RecurIter.AdvanceOne | pygenda/pygenda_calendar.py:1725 | one `+= delta` (or `+= delta[i]` with i moving on cyclically) moves to the next candidate, which is later |
| RecurIter.StepPastExcluded | pygenda/pygenda_calendar.py:1724-1727 | the `while True` loop reaches the next candidate that is not excluded, and every candidate it passes is excluded |
| RecurIter.AdvanceExcluded | pygenda/pygenda_calendar.py:1724-1727 | one more turn of the `while True` loop past an excluded candidate moves to the next candidate, which is later and still before the latest excluded date, and every candidate passed so far is excluded |
| RecurIter.RepeatInfo.constructor | pygenda/pygenda_calendar.py:1327-1374 | the repeat info holds the prepared rule, or none, and the range start |
| RecurIter.RepeatIter.constructor | pygenda/pygenda_calendar.py:1709-1711 | the iterator starts at the first candidate in range, so what it will yield is exactly the remaining repeats from there |
| RecurIter.RepeatIter.Next | pygenda/pygenda_calendar.py:1717-1782 | StopIteration exactly when nothing remains; otherwise the first remaining repeat is returned and removed |
| RecurIter.Collect | pygenda/pygenda_calendar.py:1898 | `list(iter(r_info))` is exactly the remaining repeats from the start in range |
| RecurIter.RepeatsInRange | pygenda/pygenda_calendar.py:1884-1902 | an impossible rule gives []; an unsupported one gives the fallback's list; ValueError propagates; an empty range gives []; otherwise the list is increasing and holds exactly the candidates in [start, stop) that are not excluded |
| Info.EntryInfo.constructor | pygenda/pygenda_entryinfo.py:30-55 | a missing description becomes "", an empty location None; end and duration are stored; the entry has no alarms, no repeat type, interval 1, no count, until, BY* parts or exceptions, and no categories, priority or due date |
| Info.EntryInfo.StartDate | pygenda/pygenda_entryinfo.py:58-62 | None exactly when there is no start; otherwise the start's date, and a date start as it is |
| Info.EntryInfo.StartTime | pygenda/pygenda_entryinfo.py:64-68 | a time exactly for a datetime start, and then its time of day |
| Info.EntryInfo.SetEndDt | pygenda/pygenda_entryinfo.py:70-73 | callers must not set an end together with a duration (the source's assert); the end is stored and nothing else changes |
| Info.EntryInfo.SetDuration | pygenda/pygenda_entryinfo.py:75-78 | callers must not set a duration together with an end (the source's assert); the duration is stored and nothing else changes |
| Info.EntryInfo.SetRepeatInfo | pygenda/pygenda_entryinfo.py:80-90 | UNTIL and COUNT are not both given (the source's assert); the eight repeat fields are stored, a missing interval becomes 1, and the frame lets no other field change |
| Info.CategorySet | pygenda/pygenda_entryinfo.py:93-98 | None for a missing or empty list; otherwise the set of exactly the listed categories, no larger than the list |
| Info.EntryInfo.SetCategories | pygenda/pygenda_entryinfo.py:93-98 | stores that set and nothing else changes |
| Info.PriorityOf | pygenda/pygenda_entryinfo.py:101-103 | a priority is kept exactly when it is in 1..9, else None |
| Info.EntryInfo.SetPriority | pygenda/pygenda_entryinfo.py:101-103 | stores that priority and nothing else changes |
| Info.EntryInfo.SetDuedate | pygenda/pygenda_entryinfo.py:106-108 | stores the due date and nothing else changes |
| Info.EntryInfo.AddAlarm | pygenda/pygenda_entryinfo.py:111-113 | appends a copy of the alarm; the earlier alarms and every other field are unchanged |
| DialogEvent.WeekdayCountInMonth | pygenda/pygenda_dialog_event.py:688-691 | `(day+6)//7` is the week of the month the day falls in: 1..5, with day in (7(r-1), 7r] |
| DialogEvent.WeekdayFromEndInMonth | pygenda/pygenda_dialog_event.py:695-698 | the same counted from the end of the month: -5..-1 |
| DialogEvent.LastWeekFromEnd | pygenda/pygenda_dialog_event.py:695-698 | a day in the last seven days of its month is weekday -1 from the end |
| DialogEvent.MonthDayFromEnd | pygenda/pygenda_dialog_event.py:1266-1268 | the BYMONTHDAY from the end is -31..-1, names the same day, and is -1 exactly on the last day of the month |
| DialogEvent.ByDayParts | pygenda/pygenda_dialog_event.py:1252-1276 | the BYDAY text built from a count and a date reads back as that weekday and that count |
| DialogEvent.ByDayLands | pygenda/pygenda_dialog_event.py:1252-1276 | the dialog's BYDAY rule, run through the recurrence engine's `firstday_to_byweekdayinmonth`, gives back the start date |
| DialogEvent.PositiveOrOne | pygenda/pygenda_dialog_event.py:1432-1455 | the interval or occurrence count is the integer typed when it parses and is at least 1, else 1 |
| DialogEvent.FreqNameOf | pygenda/pygenda_dialog_event.py:1241-1285 | the repeat type chosen is passed on unchanged |
| DialogEvent.RepEndFromOccs | pygenda/pygenda_dialog_event.py:556-589 | no start date or an unknown type changes nothing; the rrule library is used exactly for a yearly 29 February start or repeat-on, or a monthly day of 29 or later or repeat-on |
| DialogEvent.RepEndDays | pygenda/pygenda_dialog_event.py:574-577 | weekly and daily ends are (occurrences-1)*interval weeks or days after the start |
| DialogEvent.RepEndSubday | pygenda/pygenda_dialog_event.py:578-583 | sub-day ends add only the whole days of the span to the start date |
| DialogEvent.RepEndMonthly | pygenda/pygenda_dialog_event.py:568-573 | a monthly end keeps the day of month and is span months on |
| DialogEvent.RepEndYearly | pygenda/pygenda_dialog_event.py:562-567 | a yearly end is the same day span years on |
| DialogEvent.RepeatOnFields | pygenda/pygenda_dialog_event.py:1244-1276 | BYDAY only for yearly or monthly repeat-on-weekday, with the week count from the start or end; BYMONTH exactly with a yearly BYDAY, as the start's month; BYMONTHDAY only for monthly from-end |
| DialogEvent.AdjustAlarm | pygenda/pygenda_dialog_event.py:1550 | the new offset is min(offset + d, 0) |
| DialogEvent.SortDates | pygenda/pygenda_dialog_event.py:1150 | `sorted` of a set: strictly increasing, holding exactly the set's dates |
| DialogEvent.ExceptionDates | pygenda/pygenda_dialog_event.py:1144-1149 | exactly the dates of all the EXDATE values |
| DialogEvent.AsMoments | pygenda/pygenda_dialog_event.py:1299-1302 | one exception per date, with the start time when there is one |
| DialogEvent.EventDialogController.constructor | pygenda/pygenda_dialog_event.py:95-107 | the occurrence count decides the repeat end, the duration does not decide the end time, the exception list and the alarm list are empty, with no end date and no alarm row selected |
| DialogEvent.EventDialogController.SetRepExceptionList | pygenda/pygenda_dialog_event.py:1139-1150 | the list is sorted without duplicates; empty without event, RRULE or EXDATE; otherwise exactly the EXDATE dates; nothing else changes |
| DialogEvent.EventDialogController.SyncRepEndsFromOccs | pygenda/pygenda_dialog_event.py:556-618 | the end-date widget gets the computed end when there is one, the rule library's last occurrence when the case is handed to it, else is unchanged; no other field changes |
| DialogEvent.EventDialogController.ExceptionsForType | pygenda/pygenda_dialog_event.py:1289-1302 | None for an empty list; otherwise one exception per listed date, a datetime exactly for a timed entry with a time |
| DialogEvent.EventDialogController.FillinRepeatinfo | pygenda/pygenda_dialog_event.py:1239-1285 | with no repeat type every entry field keeps its value; otherwise the type, interval, BY* parts and exceptions, plus COUNT when the number of occurrences decides the end, UNTIL when the end-date widget holds a valid date, and neither when the repeat is forever or the end date is invalid |
| DialogEvent.EventDialogController.AlarmlistAddToCurrentRow | pygenda/pygenda_dialog_event.py:1545-1551 | only the selected row changes, by `AdjustAlarm`, and no other field; offsets never rise above 0 |
| DialogEvent.ExceptionsDialogController.constructor | pygenda/pygenda_dialog_event.py:1626-1628 | one row per distinct given date, none selected |
| DialogEvent.ExceptionsDialogController.GetDates | pygenda/pygenda_dialog_event.py:1655-1659 | the set of the listed dates |
| DialogEvent.ExceptionsDialogController.AddDate | pygenda/pygenda_dialog_event.py:1663-1681 | an invalid date shows the error style and changes nothing else; for a valid date the error flag is kept, a listed date leaves the rows unchanged, a new date is appended, and the selection becomes exactly the date's row |
| RecurRule.IsExdate | pygenda/pygenda_calendar.py:1655-1667 | false with no exdates; true for a listed moment; otherwise true exactly for a datetime of a daily-or-longer timed repeat whose date is listed |
| YearView.YearCursor.constructor | pygenda/pygenda_view_year.py:55-60 | no target column, no date contents and no today toggle, with the cursor on the given date at index 0 |
| YearView.Lead | pygenda/pygenda_view_year.py:634-635 | the blank cells before day 1 of a month row: 0..6 |
| YearView.DateToCell | pygenda/pygenda_view_year.py:632-637 | `_date_to_cell`: the column lies in 0..GRID_COLUMNS-1 and is the day's offset after the row's lead; the row is month-1 |
| YearView.CellToDateClamped | pygenda/pygenda_view_year.py:641-653 | a valid date in month y+1 of yr; a cell before the month gives day 1 and a cell after it the last day |
| YearView.CellRoundTrip | pygenda/pygenda_view_year.py:632-653 | the cell of a date maps back to that date |
| YearView.CellInsideMonth | pygenda/pygenda_view_year.py:632-653 | a cell inside a month maps to a date whose cell is that cell |
| YearView.PrevMonthRow | pygenda/pygenda_view_year.py:485-489 | the row above is the previous month: from January, December of the year before |
| YearView.NextMonthRow | pygenda/pygenda_view_year.py:502-506 | the row below is the next month: from December, January of the year after |
| YearView.YearCursor.CursorSetDate | pygenda/pygenda_view_year.py:370-378 | sets date and index, and clears the target column when asked |
| YearView.YearCursor.TargetColumn | pygenda/pygenda_view_year.py:483-484 | the saved target column, or the cursor's own column, which is then saved |
| YearView.YearCursor.CursorMoveUp | pygenda/pygenda_view_year.py:480-493 | moves one month back (January to December of the previous year) to the clamped date in the target column, index 0, today toggle date cleared and its index kept |
| YearView.YearCursor.CursorMoveDn | pygenda/pygenda_view_year.py:497-510 | moves one month on (December to January of the next year) in the same way |
| YearView.YearCursor.CursorMovePgUpDn | pygenda/pygenda_view_year.py:534-543 | moves d years in the same month, to the clamped date in the target column |
| YearView.YearCursor.CursorMoveStmon | pygenda/pygenda_view_year.py:514-519 | moves to day 1 of the month and clears the target column |
| YearView.YearCursor.CursorMoveEndmon | pygenda/pygenda_view_year.py:523-530 | moves to the month's last day, the day before the next month's first |
| YearView.YearCursor.CursorMoveToday | pygenda/pygenda_view_year.py:547-557 | away from today: saves date and index and jumps to today; on today: returns to the saved date and index, or does nothing when none is saved, and keeps the saved date and index either way |
| YearView.YearCursor.ShowEntryCursor | pygenda/pygenda_view_year.py:328-338 | the entry index becomes 0 with no entries, the last entry when out of range, and is kept otherwise |
| YearView.YearCursor.IdxCursorMoveUp | pygenda/pygenda_view_year.py:561-566 | one entry up unless on the first; nothing else changes |
| YearView.YearCursor.IdxCursorMoveDn | pygenda/pygenda_view_year.py:570-575 | one entry down unless on the last, an index below 0 clamped as `_show_entry_cursor` does; nothing else changes |
| WeekView.PackRoundTrip | pygenda/pygenda_view_week.py:259-289 | the packed cursor dy + 8*i decodes back to (dy, i) by %8 and //8 for dy in 0..6 |
| WeekView.UnpackRoundTrip | pygenda/pygenda_view_week.py:286-289 | every packed value is rebuilt from its decoding, whose day part is 0..7 |
| WeekView.DayOfYear | pygenda/pygenda_view_week.py:162 | `tm_yday` is 1..days-in-year and counts the date's place in its year |
| WeekView.WeekNumber | pygenda/pygenda_view_week.py:162 | (yday+9)//7 is 1..53 and is the week whose Thursday-based block of seven days covers the date |
| WeekView.WeekLabelOf | pygenda/pygenda_view_week.py:162-166 | the label shows the week number, or "Week 53/Week 1" only for week 53 |
| WeekView.Week53InDecember | pygenda/pygenda_view_week.py:162-166 | a week numbered 53 starts on 27 December or later |
| WeekView.DoubleLabelIffNextWeekOne | pygenda/pygenda_view_week.py:159-166 | for week 53, the double label is shown exactly when the week holds 4 January of the next year, so it is also week 1 of that year |
| WeekView.PrefixBefore | pygenda/pygenda_view_week.py:206-212 | how many sorted occurrences start before a bound: all of those are before it and the next is not |
| WeekView.DayCounts | pygenda/pygenda_view_week.py:201-225 | seven counts, one per day of the week |
| WeekView.CountsPrefix | pygenda/pygenda_view_week.py:201-237 | the counts of the first k days add up to the occurrences before the end of day k-1 |
| WeekView.CountsCoverWeek | pygenda/pygenda_view_week.py:195-237 | when every occurrence is before the week's end, the seven counts add up to the number of occurrences |
| WeekView.CountDays | pygenda/pygenda_view_week.py:196-237 | the loop over days and occurrences computes exactly `DayCounts` |
| WeekView.WalkDay | pygenda/pygenda_view_week.py:206-229 | the inner loop of one day moves the occurrence pointer to the first occurrence on or after the next day |
| WeekView.CursorEntryInRange | pygenda/pygenda_view_week.py:303-308 | the index sum(counts[:dy]) + cursor index is inside the list and before the end of the cursor day |
| WeekView.CursorEntryOnDay | pygenda/pygenda_view_week.py:303-308 | in a sorted list, that occurrence is also at or after the start of the cursor day |
| WeekView.PageMoves | pygenda/pygenda_view_week.py:353-368 | right from days 0..2 adds 4 (to the right page) else 7; left subtracts 7 on days 0..2, 3 on day 3 and 4 on days 4..6; right then left returns to a left-page day |
| WeekView.DayInWeekAfter | pygenda/pygenda_view_week.py:353-368 | moving d days moves `day_in_week` by d modulo 7 |
| WeekView.WeekCursor.constructor | pygenda/pygenda_view_week.py:48-51 | seven zero counts, no occurrences, no week viewed and no cursor drawn, with the cursor on the given date at index 0 |
| WeekView.WeekCursor.CursorWeek | pygenda/pygenda_view_week.py:144 | the start of the cursor's week, `CursorDay` days before the cursor date |
| WeekView.WeekCursor.RenewDisplay | pygenda/pygenda_view_week.py:312-314 | forgets the week viewed, so the next redraw redraws everything |
| WeekView.WeekCursor.SetLabelText | pygenda/pygenda_view_week.py:140-145 | records the cursor's week as viewed and drops the cursor mark |
| WeekView.WeekCursor.SetEntryText | pygenda/pygenda_view_week.py:190-237 | lists the week's occurrences and stores their per-day counts |
| WeekView.WeekCursor.ShowCursor | pygenda/pygenda_view_week.py:242-259 | clamps the index into 0..max(0, count-1) and marks the packed cursor |
| WeekView.WeekCursor.HideCursor | pygenda/pygenda_view_week.py:282-296 | returns the decoded cell of the marked cursor, if any, and clears the mark |
| WeekView.WeekCursor.Redraw | pygenda/pygenda_view_week.py:318-326 | a new week or changed entries reload the occurrences and counts, otherwise they are kept; the cursor is then clamped and shown |
| WeekView.WeekCursor.GetCursorEntry | pygenda/pygenda_view_week.py:300-308 | None exactly on an empty day; otherwise the entry at sum(counts[:dy]) + index, which in a sorted list lies on the cursor day |
| WeekView.WeekCursor.CursorInc | pygenda/pygenda_view_week.py:334 | moves the date by a number of days and sets the index when one is given |
| WeekView.WeekCursor.CursorMoveUp | pygenda/pygenda_view_week.py:330-338 | one entry up; above the first entry, to the previous day with index -1 (its last entry after the next redraw) |
| WeekView.WeekCursor.CursorMoveDn | pygenda/pygenda_view_week.py:342-350 | one entry down; past the last entry, to the next day at index 0 |
| WeekView.WeekCursor.CursorMoveLt | pygenda/pygenda_view_week.py:354-359 | moves by the left delta to index 0, and the day of week moves by the same amount |
| WeekView.WeekCursor.CursorMoveRt | pygenda/pygenda_view_week.py:363-368 | moves by the right delta in the same way |
| TodoView.DefaultCats | pygenda/pygenda_view_todo.py:101-107 | None exactly for no filter, '' or UNCATEGORIZED; otherwise the one-element list [filter] |
| TodoView.NonEmpty | pygenda/pygenda_view_todo.py:260-266 | the comprehension `if c` keeps exactly the non-empty names |
| TodoView.AllItemCats | pygenda/pygenda_view_todo.py:256-262 | the names of a CATEGORIES list are exactly those of its items |
| TodoView.GetCategories | pygenda/pygenda_view_todo.py:252-267 | [] without CATEGORIES; otherwise exactly the non-empty names of all its items, text items split at commas |
| TodoView.CategoriesNonEmpty | pygenda/pygenda_view_todo.py:252-267 | no category returned is empty |
| TodoView.TextCategory | pygenda/pygenda_view_todo.py:263-264 | a text without commas is one category, or none when empty |
| TodoView.TextCategoriesNoComma | pygenda/pygenda_view_todo.py:263-264 | no category split from a text contains a comma |
| TodoView.DefaultCatsMatch | pygenda/pygenda_view_todo.py:100-107 | for every filter except '', a to-do given the filter's default categories matches the filter |
| TodoView.EmptyFilterMatchesNoDefault | pygenda/pygenda_view_todo.py:100-107 | the filter '' is the exception: such a to-do does not match it |
| TodoView.MatchesNamed | pygenda/pygenda_view_todo.py:241-248 | a to-do matching a named filter other than UNCATEGORIZED has that category |
| TodoView.SelectMembers | pygenda/pygenda_view_todo.py:207-208 | a to-do is selected for a filter exactly when it is in the list and matches |
| TodoView.Matching | pygenda/pygenda_view_todo.py:205-226 | the inner loop collects exactly the matching to-dos in order, and counts them |
| TodoView.SelectStep | pygenda/pygenda_view_todo.py:207-225 | one to-do of the loop: appended when it matches, skipped otherwise |
| TodoView.Partition | pygenda/pygenda_view_todo.py:202-226 | list i is exactly the to-dos matching filter i in calendar order, and count i is its length |
| TodoView.TodoList.constructor | pygenda/pygenda_view_todo.py:77-97 | one empty list per filter, cursor on the first |
| TodoView.TodoList.Redraw | pygenda/pygenda_view_todo.py:192-237 | changes nothing when the entries did not change; otherwise rebuilds every list from the to-dos, keeps the list and clamps the index |
| TodoView.TodoList.ShowCursor | pygenda/pygenda_view_todo.py:276-280 | clamps the list into 0..list_count-1, then the index into 0..count-1 (0 in an empty list) |
| TodoView.TodoList.CursorMoveUp | pygenda/pygenda_view_todo.py:375-378 | one item up, and from the first item to the last |
| TodoView.TodoList.CursorMoveDn | pygenda/pygenda_view_todo.py:381-385 | one item down modulo the count; nothing in an empty list |
| TodoView.TodoList.CursorMoveRt | pygenda/pygenda_view_todo.py:388-391 | the next list modulo the list count, index clamped |
| TodoView.TodoList.CursorMoveLt | pygenda/pygenda_view_todo.py:394-397 | the previous list, from the first to the last, index clamped |
| TodoView.TodoList.CursorMoveTo | pygenda/pygenda_view_todo.py:400-409 | a jump to a list and an index, both clamped |
| TodoView.TodoList.GetCursorEntry | pygenda/pygenda_view_todo.py:160-165 | None exactly in an empty list, else the to-do under the cursor |
| View.EntryIcons | pygenda/pygenda_view.py:131-143 | the alarm icon exactly when the entry has an alarm and the repeat icon exactly when it has an RRULE, repeat icon last, and a leading space only when asked for and there is an icon |
| View.EndDay | pygenda/pygenda_view.py:146-168 | the day holding the instant a millisecond before an end datetime |
| View.EntryEndtime | pygenda/pygenda_view.py:146-168 | no end text exactly when there is no end, the end is not after the start, or an all-day event lasts one day; a date-only event shows its last day; otherwise the end time alone when the end is within the start day, else the end date and time |
| View.OneDayEventsShowNoEnd | pygenda/pygenda_view.py:146-153 | a one-day all-day event shows no end |
| View.StatusClass | pygenda/pygenda_view.py:171-176 | a style class only for TENTATIVE, CONFIRMED or CANCELLED, named after the status in lower case: the class is all lower-case letters and upper-cases back to the status |
| View.MarkerLabel | pygenda/pygenda_view.py:302-317 | the time for timed entries; otherwise the to-do bullet for to-dos, the all-day bullet for events with DTEND, and the plain bullet for the rest |
| View.RowBottom | pygenda/pygenda_view.py:189-201 | the lowest scroll value that shows the row is capped at the highest |
| View.HeightAbove | pygenda/pygenda_view.py:185-188 | the loop adds up the heights of the rows above |
| View.ScrollToRow | pygenda/pygenda_view.py:180-213 | the new adjustment value lies between the row's bottom and top bounds, and is unchanged when it already did; the callback is not repeated |
| View.YToDayRow | pygenda/pygenda_view.py:216-241 | 0 when maxrow <= 1; otherwise a row in 0..maxrow-1 such that y is past every earlier row, and before the end of the row found unless it is the last |
| Gui.SanitisePastedText | pygenda/pygenda_gui.py:874-879 | the result is as long as the stripped text |
| Gui.SanitiseClean | pygenda/pygenda_gui.py:874-879 | the result has no newline or tab and no whitespace at either end, and keeps every other character of the stripped text |
| Gui.SanitiseIdempotent | pygenda/pygenda_gui.py:874-879 | sanitising twice is sanitising once |
| Gui.KeepFirst | pygenda/pygenda_gui.py:434-437 | only Y, M and D, each at most once, and each of them exactly when the text has it |
| Gui.KeepFirstLength | pygenda/pygenda_gui.py:434-437 | the length is the number of distinct letters of Y, M and D in the text |
| Gui.KeepFirstOrder | pygenda/pygenda_gui.py:434-437 | the letters come in the order of their first occurrence |
| Gui.DateOrderFromConfig | pygenda/pygenda_gui.py:430-439 | the assert holds exactly when the upper-cased setting has Y, M and D; then the result is those three letters in order of first occurrence |
| Gui.ComboNext | pygenda/pygenda_gui.py:573-576 | + selects the next item and wraps from the last to the first; with no selection it selects the first |
| Gui.ComboPrev | pygenda/pygenda_gui.py:577-582 | - selects the previous item and wraps from the first to the last; with no selection it selects the last |
| Gui.ComboNextPrev | pygenda/pygenda_gui.py:573-582 | + then - and - then + return to the same item |
| Gui.Cyc | pygenda/pygenda_gui.py:658-659 | `i % len(views)` for i from the current view on is a view index |
| Gui.FirstAcceptingSpec | pygenda/pygenda_gui.py:658-663 | the view found accepts, and none is found exactly when every view refuses |
| Gui.NoneAccepting | pygenda/pygenda_gui.py:658-663 | when none is found, no view accepts |
| Gui.FindAccepting | pygenda/pygenda_gui.py:658-663 | the loop finds the first view, counting cyclically from the current one, that accepts |
| Gui.ViewSwitcher.constructor | pygenda/pygenda_gui.py:70-71 | the first view is shown and no view is saved for toggling (-1) |
| Gui.ViewSwitcher.SwitchView | pygenda/pygenda_gui.py:628-649 | no index: the next view modulo the view count, with the old one saved for toggling; the current index: no change; another index: that view, with the old one saved |
| Gui.ViewSwitcher.KeypressEscape | pygenda/pygenda_gui.py:524-526 | Escape switches to the saved view only when one is saved, and then saves the view it leaves |
| Gui.ViewSwitcher.CursorGoto | pygenda/pygenda_gui.py:653-677 | switches to the first accepting view counted from the current one; stays when the current view accepts or none does |
| Config.Lookup | pygenda/pygenda_config.py:91-95 | a missing section gives NoSectionError, a missing option in a present section gives NoOptionError, otherwise the stored value |
| Config.Store | pygenda/pygenda_config.py:98-103 | the section set gains the section (added when absent) and nothing else |
| Config.LookupAfterStore | pygenda/pygenda_config.py:98-103 | after storing, the stored option reads back as the value; other options of a fresh section are missing; everything else reads as before |
| Config.WithDefaultsKeeps | pygenda/pygenda_config.py:69-76 | applying defaults keeps every existing option's value, adds every default key, and adds no other key |
| Config.WithDefaultsFirst | pygenda/pygenda_config.py:74-76 | an option absent before takes the value of its first default entry |
| Config.WithDefaultsTwice | pygenda/pygenda_config.py:69-76 | applying the same defaults twice is the same as once |
| Config.AllPresentUnchanged | pygenda/pygenda_config.py:74-76 | when every default key is already set, nothing changes |
| Config.IntOf | pygenda/pygenda_config.py:123 | an integer default reads as itself, a boolean as 1 or 0; a string converts exactly when it parses as an integer, to that integer |
| Config.BoolOfText | pygenda/pygenda_config.py:135 | text converts exactly when its lower-case form is one of the boolean words, to that word's truth value |
| Config.BoolOfTextCases | pygenda/pygenda_config.py:135 | "TRUE", "Yes", "On" read as true; "False", "NO", "0" as false; "2" and "y" are errors |
| Config.Config.constructor | pygenda/pygenda_config.py:34 | a new parser holds no sections |
| Config.Config.Get | pygenda/pygenda_config.py:91-95 | succeeds exactly when section and option are present, with the stored value |
| Config.Config.Set | pygenda/pygenda_config.py:98-103 | the new sections are the old ones with the value stored, and it reads back |
| Config.Config.SetDefaults | pygenda/pygenda_config.py:69-76 | the section exists afterwards, keeps its old values and holds every default key |
| Config.Config.GetInt | pygenda/pygenda_config.py:117-124 | lookup errors pass through; unset or empty gives None; otherwise the integer conversion, with an integer default as itself, or its error |
| Config.Config.GetFloatInput | pygenda/pygenda_config.py:107-114 | lookup errors pass through; unset or empty gives None; otherwise the stored value for conversion |
| Config.Config.GetBool | pygenda/pygenda_config.py:127-136 | lookup errors pass through; unset or empty gives None; a stored boolean is returned as is; a stored integer raises AttributeError; text goes through the boolean words |
| Widgets.ValidValue | pygenda/pygenda_widgets.py:211-222 | a field that is not a number becomes the minimum; a number is clamped into the limits |
| Widgets.ValidateIdempotent | pygenda/pygenda_widgets.py:211-222 | validating an already validated field changes nothing |
| Widgets.IncValue | pygenda/pygenda_widgets.py:147-160 | "+" adds one; a non-number becomes the minimum; going past the maximum wraps to the minimum or stays at the maximum, so the result never exceeds the maximum |
| Widgets.DecValue | pygenda/pygenda_widgets.py:161-174 | "-" subtracts one; a non-number becomes the maximum; going below the minimum wraps to the maximum or stays at the minimum, so the result is never below the minimum |
| Widgets.DecUndoesInc | pygenda/pygenda_widgets.py:147-174 | on a wrapping field, "-" after "+" gives back the value |
| Widgets.IncUndoesDec | pygenda/pygenda_widgets.py:147-174 | on a wrapping field, "+" after "-" gives back the value |
| Widgets.FieldRow.constructor | pygenda/pygenda_widgets.py:58-96 | the row holds the given field texts and limits |
| Widgets.FieldRow.Plus | pygenda/pygenda_widgets.py:147-160 | only the chosen field changes, to the incremented padded value |
| Widgets.FieldRow.Minus | pygenda/pygenda_widgets.py:161-174 | only the chosen field changes, to the decremented padded value |
| Widgets.FieldRow.Validate | pygenda/pygenda_widgets.py:211-222 | only the chosen field changes, to its validated padded value |
| Widgets.FocusCounter.constructor | pygenda/pygenda_widgets.py:58-68 | no field has focus and the widget is not styled |
| Widgets.FocusCounter.FocusIn | pygenda/pygenda_widgets.py:99-106 | the count rises by one and the focus style is added on the first focus; styled exactly when the count is positive is preserved |
| Widgets.FocusCounter.FocusOut | pygenda/pygenda_widgets.py:114-118 | the count falls by one and the style is removed when it reaches zero; styled exactly when the count is positive is preserved |
| Widgets.MakeDate | pygenda/pygenda_widgets.py:290 | a date is built exactly when it exists in the calendar and in the years 1 to 9999 |
| Widgets.WidgetDate.constructor | pygenda/pygenda_widgets.py:239-273 | the fields show the given date, or today when there is none |
| Widgets.WidgetDate.SetDate | pygenda/pygenda_widgets.py:276-282 | the year field shows the year, month and day are two-digit padded; no date means today |
| Widgets.WidgetDate.GetDateOrNone | pygenda/pygenda_widgets.py:285-299 | a date only when all three fields are numbers naming an existing date, and then that date |
| Widgets.WidgetDate.GetApproxDate | pygenda/pygenda_widgets.py:302-346 | always an existing date: the exact one when the fields are valid, else today's year or month for a non-number field and day 1 for a non-number day |
| Widgets.DateRoundTrip | pygenda/pygenda_widgets.py:276-299 | reading back what set_date wrote gives the same date |
| Widgets.ApproxDateClamps | pygenda/pygenda_widgets.py:302-341 | each field that holds a number is clamped on its own, whatever the other fields hold: year into 1..9999, month into 1..12, day into 1..the resulting month's length |
| Widgets.Hour12 | pygenda/pygenda_widgets.py:488-494 | the 12-hour display hour is between 1 and 12 and agrees with the hour modulo 12 |
| Widgets.WidgetTime.constructor | pygenda/pygenda_widgets.py:367-400 | the fields show the given time in the chosen clock mode |
| Widgets.WidgetTime.SetTime | pygenda/pygenda_widgets.py:483-495 | the fields show the time: padded hour in 24-hour mode, 12-hour hour plus am/pm otherwise, padded minutes |
| Widgets.WidgetTime.GetTimeOrNone | pygenda/pygenda_widgets.py:498-516 | a time only when both fields are numbers, with the minute field's minute and, in 24-hour mode, the hour field's hour |
| Widgets.TimeRoundTrip | pygenda/pygenda_widgets.py:483-516 | reading back what set_time wrote gives the same time in both clock modes |
| Widgets.TimeFromFields | pygenda/pygenda_widgets.py:498-508 | fields holding the numbers of a time, in either mode, read back as that time |
| Widgets.Fit | pygenda/pygenda_widgets.py:71-76 | a field whose maximum length is n keeps the first n characters of a text, and a text that fits whole |
| Widgets.WidgetDuration.constructor | pygenda/pygenda_widgets.py:533-552 | the fields show the given duration: whole hours cut to the hour field's two characters, and the remaining minutes padded |
| Widgets.WidgetDuration.SetDuration | pygenda/pygenda_widgets.py:555-560 | the hour field shows whole hours cut to its maximum length of two characters, and the minute field the remaining minutes, padded |
| Widgets.WidgetDuration.GetDurationOrNone | pygenda/pygenda_widgets.py:563-578 | a duration exactly when both fields are numbers, hours not negative and minutes below 60, and then hours and minutes in microseconds |
| Widgets.DurationRoundTrip | pygenda/pygenda_widgets.py:555-578 | reading back what set_duration wrote fails exactly for a negative duration; below 100 hours it gives the duration cut to whole minutes; from 100 hours on, the cut hour field reads back below 100 hours |
| Widgets.DurationFromFields | pygenda/pygenda_widgets.py:563-570 | fields holding the hour and minute numbers of a duration read back as that duration cut to whole minutes |
| YearIcons.Bits | tools/make_css_yearicons.py:60-63 | the chosen group indices are fewer than the group count and each below it |
| YearIcons.BitsSpec | tools/make_css_yearicons.py:60-63 | an index is chosen exactly when its bit is set in the mask, and the chosen indices ascend |
| YearIcons.BitsLength | tools/make_css_yearicons.py:60-63 | the number of chosen groups is the number of set bits below the group count |
| YearIcons.BitCountPopcount | tools/make_css_yearicons.py:60-63 | for a mask below 2^n, the chosen-group count is the mask's popcount |
| YearIcons.PopcountPositive | tools/make_css_yearicons.py:57-63 | a mask chooses at least one group exactly when it is not zero |
| YearIcons.Order | tools/make_css_yearicons.py:48-55 | an order exists exactly for two, three or four groups |
| YearIcons.OrderIsAllMasks | tools/make_css_yearicons.py:48-53 | the order lists 2^n - 1 distinct masks, each between 1 and 2^n - 1 |
| YearIcons.OrderCoversMasks | tools/make_css_yearicons.py:45-53 | every non-empty combination of groups appears in the order |
| YearIcons.OrderByPopcount | tools/make_css_yearicons.py:45-53 | single-icon masks come first, then double, then triple: popcounts never decrease along the order |
| YearIcons.EntryPopcount | tools/make_css_yearicons.py:45-53 | each order entry's popcount is the icon count of its position |
| YearIcons.ChosenGroupsGrow | tools/make_css_yearicons.py:57-63 | each rule draws on between 1 and n groups, and the count never decreases along the order |
| YearIcons.SplitJoin | tools/make_css_yearicons.py:64 | splitting a "+"-joined icon name at "+" gives the parts back when no part holds "+" |
| YearIcons.Prefixed | tools/make_css_yearicons.py:30-36 | each selector tail gets the prefix, keeping the count |
| YearIcons.ExpandAt | tools/make_css_yearicons.py:30-36 | the nested loops put class i of the first group with tail k at position i times the tail count plus k |
| YearIcons.ExpandLength | tools/make_css_yearicons.py:30-36 | expanding one group multiplies the count of selectors by its size |
| YearIcons.ProductLength | tools/make_css_yearicons.py:30-36 | the selector count is the product of the group sizes |
| YearIcons.ProductAt | tools/make_css_yearicons.py:30-36 | every choice of one class per group appears, at its mixed-radix position, as the dotted concatenation |
| YearIcons.Selectors | tools/make_css_yearicons.py:40-41 | one selector per combination, with the cursor class appended when asked |
| YearIcons.PrintGroups | tools/make_css_yearicons.py:28-42 | one to four groups give the comma-joined selectors; any other count is the unhandled-groups error |
| YearIcons.ChooseGroups | tools/make_css_yearicons.py:57-64 | the loop collects the groups and icons whose bits are set, in group order, and joins the icons with "+" |
| YearIcons.OrderPrintable | tools/make_css_yearicons.py:57-72 | every rule in the order prints without the unhandled-groups error |
| YearIcons.IconNameSplits | tools/make_css_yearicons.py:57-64 | the icon file name splits back into the chosen icons |
| YearIcons.MakeRules | tools/make_css_yearicons.py:48-75 | no order for an unhandled group count; otherwise two rules per order entry, plain then cursor, in order |

## Left out

- Time zones: `astimezone`, `get_local_tz`, `_fix_tz` and the UTC conversion of sub-daily repeats depend on the operating system's zone database. Datetimes here are naive, and a DTSTART carrying a TZID is treated as unsupported.
- The dateutil rule expander (`repeats_in_range_with_rrstr`, `first_occ`) is library code outside this model. Its answer, used for unsupported rules, is the parameter `fallback` of `RecurIter.RepeatsInRange`. In the event dialog, the last occurrence it gives (`_sync_rep_end_from_occ_rrule`) is the parameter `libLast` of `DialogEvent.EventDialogController.SyncRepEndsFromOccs`.
- RecurRule.CeilDiv: computes the exact integer ceiling, whereas `_do_initial_jump` takes `ceil` of a float ratio. Rounding can make the float jump one step short. The skip loops that follow absorb that step, so the first occurrence found is the same.
- RecurRule.MonthsBetween: is `relativedelta(...).months + 12 * years` over naive datetimes. It ignores the time-zone offsets the source may carry.
- The storage connectors are not part of this model: the iCalendar file with its temporary file and backups, CalDAV over the network, and Evolution through GObject calls. `Calendar.init`, which reads the configuration and opens them, is left out with them. `Calendar.Calendar` is built from connector flags and cached lists supplied by the caller.
- The iCalendar object model and its serialisation are not modelled. An entry is a map from property name to a typed value (`entries.dfy`).
- `uuid1`, `utc_now_stamp` and `date.today()` are not modelled. The edit time and today's date are parameters.
- `_todo_sortindex_priority` uses float infinity and POSIX timestamps. It is not modelled.
- GTK plumbing is not modelled: widget construction, signal blocking, CSS class changes and dialog run loops. Each view keeps only the state its cursor logic reads: counts, indices and dates.
- Locale text is not modelled: `strftime`, `nl_langinfo`, `gettext` and `num2words`. `Util.GuessDateOrder` receives the locale's date format as a string.
- `GUI.init_stage2` runs in a background thread with a busy-wait loop. It is not modelled.
- `Config.init` parses command-line arguments and reads files. It is not modelled; `Config.Config` starts with no sections.
- The clipboard bridge (`csrc/pygenda_clipboard.c`) is not part of this model. It only hands two strings to GTK.
- The dialog-only files (`pygenda_dialog_todo.py`, `pygenda_dialog_find.py`, `pygenda_dialog_import.py`, `pygenda_dialog_entryprops.py`) only read widgets and format labels. They are not part of this model.
- `GUI.cursor_inc` is not part of this model. `WeekView.WeekCursor.CursorInc` models it as adding days to the cursor date and, when an index is given, setting the index. The redraw it triggers is modelled separately as `Redraw`.
- The week view's `_cursor_move_today` is not modelled. `YearView.YearCursor.CursorMoveToday` models the same logic for the year view.
- `ExceptionsDialogController._remove_dates` is not modelled: it removes selected list rows. The order in which the list box sorts its rows is not modelled either.
- Gui.ComboNext: with an empty list the source raises ZeroDivisionError. The model returns None.
- Gui.ComboPrev: with an empty list the source raises ZeroDivisionError. The model returns None.
- Config.Config.GetFloatInput: returns the stored value that `getfloat` would convert. Float parsing is not modelled.
- Text.Strip: its own contract states only that the result is no longer than the text and has no whitespace at its ends. That it is the text with only the surrounding whitespace removed is stated by `Text.StripPiece`.
- Text.Split: its own contract states that there is at least one part and that no part holds the separator. The parts' contents are stated by `Text.JoinSplit`: joined with the separator they give the text back.
- Text.Lower: folds ASCII letters only, while `str.lower` in `parse_timedelta` and `getboolean` also folds other letters. The unit letters and boolean words are all ASCII; how other letters fold (one of them, `İ`, even becomes two characters) is not modelled.
- Config.BoolOfText: lower-cases ASCII letters only, while `str.lower` also folds other letters. No boolean word contains one.
- Text.Upper: folds ASCII letters only, while `str.upper` also folds other letters (`ß` even becomes "SS"). `Gui.DateOrderFromConfig` upper-cases the configured date order, whose letters Y, M and D are ASCII; other letters fold differently in the source, which is not modelled.
- Config.Lookup: compares option names exactly, whereas `RawConfigParser` lower-cases option names (its `optionxform`) when storing and reading them. Every option name the program uses is already lower case, so lookups by those names agree; a configuration file that spells one with capitals is read differently.
- Widgets.WidgetDate.SetDate: the maximum lengths that `_init_field_numeric` gives the numeric fields are modelled only for the duration's hour field, by `Widgets.Fit`. The other setters write texts that fit: a year in 1..9999 in four characters, and months, days, hours and minutes padded to two.
- Widgets.WidgetDate.GetApproxDate: reads each field with `int` rules, whereas the source uses `int(float(text))`. Texts such as "2.5" or "1e3", which the source accepts, fall back to the defaults here.
- Widgets.WidgetTime.GetTimeOrNone: its own contract states the 24-hour case. The 12-hour conversion is stated by `TimeFromFields` and `TimeRoundTrip`.
- Integer parsing (`Text.ParseInt`) accepts an optional sign and ASCII digits with surrounding whitespace. Python's `int` also accepts underscores between digits and non-ASCII digits; those are not modelled.
- Dates cover every integer year. `OverflowError` outside 1..9999 is not modelled, except where the date widgets check the range themselves.
- Floating-point scroll values are modelled as `real`, so rounding is not modelled.
- YearIcons.PrintGroups: produces the selector text that `print_groups` prints. The CSS declarations printed after each selector list are not modelled, and neither is the output of `exit()`.
