/**
 * The week view: two facing pages holding the seven days of the week
 * that contains the cursor date (days 0..2 on the left page, 3..6 on the
 * right), each day listing the occurrences that start on it. The view
 * keeps how many entries each day shows, the occurrence list they came
 * from, and the cursor as a packed (day, index) number.
 */
module WeekView {
  import opened Wrappers
  import opened Dates
  import opened Entries
  import opened Util
  import opened Calendar

  // ---------------------------------------------------------------------
  // The packed cursor

  /** The low three bits hold the day of the week, the rest the entry index. */
  function PackCursor(dy: int, i: int): int {
    dy + 8 * i
  }

  function UnpackCursor(c: int): (int, int) {
    (c % 8, c / 8)
  }

  /** Packing a day and an entry index and unpacking again gives them back. */
  lemma PackRoundTrip(dy: int, i: int)
    requires 0 <= dy < 7
    ensures UnpackCursor(PackCursor(dy, i)) == (dy, i)
  {
  }

  /** A packed cursor is determined by its two parts. */
  lemma UnpackRoundTrip(c: int)
    ensures var p := UnpackCursor(c); PackCursor(p.0, p.1) == c && 0 <= p.0 < 8
  {
  }

  // ---------------------------------------------------------------------
  // The week-number label

  /** `tm_yday`: 1 for 1 January. */
  function DayOfYear(d: Date): (n: int)
    requires Valid(d)
    ensures 1 <= n <= DaysInYear(d.year)
    ensures Ordinal(d) == DaysBeforeYear(d.year) + n
  {
    DayOfYearBounds(d);
    DaysBeforeMonth(d.year, d.month) + d.day
  }

  /**
   * The week number of the week starting on d: week n is the week that
   * holds day 7n - 3 of the year, so week 1 is the week holding 4 January.
   */
  function WeekNumber(d: Date): (n: int)
    requires Valid(d)
    ensures 1 <= n <= 53
    ensures DayOfYear(d) <= 7 * n - 3 <= DayOfYear(d) + 6
  {
    (DayOfYear(d) + 9) / 7
  }

  datatype WeekLabel = Week(n: int) | Week53Or1

  /** The label: "Week 53/Week 1" for a week 53 starting on the 29th or later. */
  function WeekLabelOf(d: Date): (l: WeekLabel)
    requires Valid(d)
    ensures l.Week? ==> l.n == WeekNumber(d)
    ensures l == Week53Or1 ==> WeekNumber(d) == 53
  {
    var n := WeekNumber(d);
    if n == 53 && d.day >= 29 then Week53Or1 else Week(n)
  }

  /** Week 53 starts in the last five days of December. */
  lemma Week53InDecember(d: Date)
    requires Valid(d) && WeekNumber(d) == 53
    ensures d.month == 12 && d.day >= 27
  {
    if d.month < 12 {
      MonthsApart(d.year, d.month, 12);
      assert false;
    }
  }

  /**
   * A week 53 gets the double label exactly when it also holds 4 January
   * of the next year, so that it is that year's week 1 as well.
   */
  lemma {:induction false} DoubleLabelIffNextWeekOne(d: Date)
    requires Valid(d) && WeekNumber(d) == 53
    ensures WeekLabelOf(d) == Week53Or1 <==>
      Ordinal(d) <= Ordinal(Date(d.year + 1, 1, 4)) <= Ordinal(d) + 6
  {
    Week53InDecember(d);
    DaysBeforeNextYear(d.year);
    assert Ordinal(Date(d.year + 1, 1, 4)) == Ordinal(Date(d.year, 12, 31)) + 4;
  }

  // ---------------------------------------------------------------------
  // Day counts

  /** The key of midnight at the start of day i of the week starting on `week`. */
  function DayBound(week: Date, i: int): int
    requires Valid(week)
  {
    Key(DateM(week)) + i * DayUs
  }

  /** How many occurrences at the front of the list start before the key `bound`. */
  function PrefixBefore(occs: seq<Occurrence>, bound: int): (n: nat)
    requires OccsValid(occs)
    ensures n <= |occs|
    ensures forall j :: 0 <= j < n ==> Key(occs[j].1) < bound
    ensures n < |occs| ==> Key(occs[n].1) >= bound
  {
    if |occs| == 0 || Key(occs[0].1) >= bound then 0
    else
      assert OccsValid(occs[1..]) by {
        forall a | 0 <= a < |occs[1..]| ensures ValidM(occs[1..][a].1) {
          assert occs[1..][a] == occs[a + 1];
        }
      }
      1 + PrefixBefore(occs[1..], bound)
  }

  /** A later bound takes in at least as many occurrences. */
  lemma PrefixBeforeMono(occs: seq<Occurrence>, b1: int, b2: int)
    requires OccsValid(occs) && b1 <= b2
    ensures PrefixBefore(occs, b1) <= PrefixBefore(occs, b2)
  {
  }

  /**
   * The entry count of each day, as `_set_entry_text` leaves it: walking
   * the occurrence list, a day takes the occurrences up to the first one
   * that starts on a later day (day 0 also takes any that start earlier).
   */
  function DayCounts(occs: seq<Occurrence>, week: Date): (c: seq<nat>)
    requires OccsValid(occs) && Valid(week)
    ensures |c| == 7 && forall i :: 0 <= i < 7 ==> c[i] == DayCount(occs, week, i)
  {
    seq(7, i requires 0 <= i < 7 => DayCount(occs, week, i))
  }

  /** The count of day i: the occurrences it takes between the earlier days' and the later days'. */
  function DayCount(occs: seq<Occurrence>, week: Date, i: int): nat
    requires OccsValid(occs) && Valid(week) && 0 <= i < 7
  {
    PrefixBeforeMono(occs, DayBound(week, i), DayBound(week, i + 1));
    PrefixBefore(occs, DayBound(week, i + 1)) - (if i == 0 then 0 else PrefixBefore(occs, DayBound(week, i)))
  }

  /** The counts of days 0..k-1 add up to the occurrences starting before day k. */
  lemma {:induction false} CountsPrefix(occs: seq<Occurrence>, week: Date, k: int)
    requires OccsValid(occs) && Valid(week) && 0 <= k <= 7
    ensures Sum(DayCounts(occs, week)[..k]) == if k == 0 then 0 else PrefixBefore(occs, DayBound(week, k))
  {
    var c := DayCounts(occs, week);
    if k > 0 {
      assert c[..k][..k - 1] == c[..k - 1];
      CountsPrefix(occs, week, k - 1);
    }
  }

  /** Every occurrence that starts before the week ends is counted on some day. */
  lemma CountsCoverWeek(occs: seq<Occurrence>, week: Date)
    requires OccsValid(occs) && Valid(week)
    requires forall j :: 0 <= j < |occs| ==> Key(occs[j].1) < DayBound(week, 7)
    ensures Sum(DayCounts(occs, week)) == |occs|
  {
    CountsPrefix(occs, week, 7);
    assert DayCounts(occs, week)[..7] == DayCounts(occs, week);
  }

  /**
   * The occurrence `get_cursor_entry` picks for entry `idx` of day `dy`
   * exists and starts before the next day.
   */
  lemma CursorEntryInRange(occs: seq<Occurrence>, week: Date, dy: int, idx: int)
    requires OccsValid(occs) && Valid(week) && 0 <= dy < 7
    requires 0 <= idx < DayCounts(occs, week)[dy]
    ensures var j := Sum(DayCounts(occs, week)[..dy]) + idx;
      j < PrefixBefore(occs, DayBound(week, dy + 1)) <= |occs| && Key(occs[j].1) < DayBound(week, dy + 1)
  {
    CountsPrefix(occs, week, dy);
  }

  /**
   * Over a sorted list, that occurrence also starts no earlier than the
   * day's midnight, unless the day is the first of the week, which also
   * takes any occurrence listed as starting earlier.
   */
  lemma CursorEntryOnDay(occs: seq<Occurrence>, week: Date, dy: int, idx: int)
    requires SortedOccs(occs) && Valid(week) && 0 < dy < 7
    requires 0 <= idx < DayCounts(occs, week)[dy]
    ensures var j := Sum(DayCounts(occs, week)[..dy]) + idx;
      j < |occs| && DayBound(week, dy) <= Key(occs[j].1)
  {
    CursorEntryInRange(occs, week, dy, idx);
    CountsPrefix(occs, week, dy);
    var j := Sum(DayCounts(occs, week)[..dy]) + idx;
    var lo := PrefixBefore(occs, DayBound(week, dy));
    assert lo <= j;
    assert DayBound(week, dy) <= Key(occs[lo].1) <= Key(occs[j].1);
  }

  /** Day dy of the week starting on `week` is the day d: its bounds are d's midnight and the next. */
  lemma CursorDayBounds(week: Date, d: Date, dy: int)
    requires Valid(week) && Valid(d) && Ordinal(d) == Ordinal(week) + dy
    ensures DayBound(week, dy) == Key(DateM(d)) && DayBound(week, dy + 1) == Key(DateM(d)) + DayUs
  {
  }

  /** The counts so far, one day longer. */
  lemma CountsStep(occs: seq<Occurrence>, week: Date, i: int)
    requires OccsValid(occs) && Valid(week) && 0 <= i < 7
    ensures DayCounts(occs, week)[..i + 1] == DayCounts(occs, week)[..i] + [DayCount(occs, week, i)]
  {
    var c := DayCounts(occs, week);
    assert c[..i + 1] == c[..i] + [c[i]];
  }

  /** The counting walk of `_set_entry_text`. */
  method CountDays(occs: seq<Occurrence>, week: Date) returns (counts: seq<nat>)
    requires OccsValid(occs) && Valid(week)
    ensures counts == DayCounts(occs, week)
  {
    counts := [];
    var p := 0;
    var i := 0;
    while i < 7
      invariant 0 <= i <= 7 && counts == DayCounts(occs, week)[..i]
      invariant p == if i == 0 then 0 else PrefixBefore(occs, DayBound(week, i))
    {
      var p0 := p;
      p := WalkDay(occs, week, i, p);
      CountsStep(occs, week, i);
      counts := counts + [p - p0];
      i := i + 1;
    }
    assert counts == DayCounts(occs, week)[..7];
  }

  /**
   * The inner loop of `_set_entry_text` for day i: from the first
   * occurrence not yet counted, up to the first that starts on or after
   * the next day's midnight.
   */
  method WalkDay(occs: seq<Occurrence>, week: Date, i: int, p0: nat) returns (p: nat)
    requires OccsValid(occs) && Valid(week) && 0 <= i < 7
    requires p0 == if i == 0 then 0 else PrefixBefore(occs, DayBound(week, i))
    ensures p == PrefixBefore(occs, DayBound(week, i + 1)) && p0 <= p
  {
    var next := DateM(AddDays(week, i + 1));
    assert Key(next) == DayBound(week, i + 1);
    if i > 0 {
      PrefixBeforeMono(occs, DayBound(week, i), DayBound(week, i + 1));
    }
    p := p0;
    while p < |occs| && !DtLte(next, occs[p].1)
      invariant p0 <= p <= PrefixBefore(occs, DayBound(week, i + 1))
    {
      p := p + 1;
    }
  }

  // ---------------------------------------------------------------------
  // Page moves

  /** `_cursor_move_lt`: the day offset of a move left from day i of the week. */
  function LeftDelta(i: int): int {
    if i < 3 then -7 else if i == 3 then -3 else -4
  }

  /** `_cursor_move_rt`: the day offset of a move right from day i of the week. */
  function RightDelta(i: int): int {
    if i < 3 then 4 else 7
  }

  /**
   * Where a move left or right lands, as (day of the week, weeks moved):
   * right from the left page goes across to the right page of the same
   * week, right from the right page to the same day a week on; left from
   * the left page goes to the same day a week back, left from the right
   * page across to the left page (day 3 to day 0).
   */
  lemma PageMoves(i: int)
    requires 0 <= i < 7
    ensures var r := i + RightDelta(i);
      (i < 3 ==> 3 <= r < 7) && (i >= 3 ==> r == i + 7)
    ensures var l := i + LeftDelta(i);
      (i < 3 ==> l == i - 7) && (i >= 3 ==> 0 <= l < 3)
    ensures i < 3 ==> (i + RightDelta(i)) + LeftDelta(i + RightDelta(i)) == i
  {
  }

  /** Taking whole weeks off does not change a remainder modulo 7. */
  lemma ModSevenShift(x: int, k: int)
    ensures (x - 7 * k) % 7 == x % 7
  {
    var q := x / 7;
    var r := x % 7;
    assert x - 7 * k == 7 * (q - k) + r;
  }

  /** Moving the cursor d days within or across weeks changes its day of the week by d mod 7. */
  lemma DayInWeekAfter(m: Date, d: int, startWeekDay: int)
    requires Valid(m)
    ensures DayInWeek(DateM(AddDays(m, d)), startWeekDay) == (DayInWeek(DateM(m), startWeekDay) + d) % 7
  {
    var n := AddDays(m, d);
    WeekdayOfOrdinal(m, n);
    var w := Weekday(m);
    var x := w + d - startWeekDay;
    assert DayInWeek(DateM(n), startWeekDay) == x % 7 by {
      assert Weekday(n) - startWeekDay == x - 7 * ((w + d) / 7);
      ModSevenShift(x, (w + d) / 7);
    }
    assert (DayInWeek(DateM(m), startWeekDay) + d) % 7 == x % 7 by {
      assert DayInWeek(DateM(m), startWeekDay) + d == x - 7 * ((w - startWeekDay) / 7);
      ModSevenShift(x, (w - startWeekDay) / 7);
    }
  }

  // ---------------------------------------------------------------------
  // The view's state

  /** The class fields of `View_Week` and the cursor fields of `GUI` it uses. */
  class WeekCursor {
    var cursorDate: Date
    var cursorIdx: int
    var todayToggleDate: Option<Date>
    /** The first day of the week last labelled; None when a full redraw is due. */
    var weekViewed: Option<Date>
    var visible: seq<Occurrence>
    var dayEntCount: seq<nat>
    var lastCursor: Option<int>
    /** The configured first day of the week, 0 = Monday. */
    const startWeekDay: int

    /** The counts are those of the listed occurrences over the week viewed. */
    ghost predicate Valid()
      reads this
    {
      Dates.Valid(cursorDate) && OccsValid(visible) && |dayEntCount| == 7
      && (todayToggleDate.Some? ==> Dates.Valid(todayToggleDate.value))
      && (weekViewed.Some? ==> Dates.Valid(weekViewed.value) && dayEntCount == DayCounts(visible, weekViewed.value))
    }

    /** The first day of the week holding the cursor date. */
    function CursorWeek(): (w: Date)
      requires Dates.Valid(cursorDate)
      reads this
      ensures Dates.Valid(w) && Ordinal(cursorDate) == Ordinal(w) + CursorDay()
    {
      StartOfWeek(DateM(cursorDate), startWeekDay).date
    }

    /** `day_in_week(GUI.cursor_date)`. */
    function CursorDay(): (dy: int)
      requires Dates.Valid(cursorDate)
      reads this
      ensures 0 <= dy < 7
    {
      DayInWeek(DateM(cursorDate), startWeekDay)
    }

    /** The state after a redraw: the cursor's week shown and its index clamped. */
    ghost predicate Drawn()
      reads this
    {
      Valid() && weekViewed == Some(CursorWeek())
      && cursorIdx == Clamp(cursorIdx, dayEntCount[CursorDay()])
    }

    constructor (d: Date, startWeekDay: int)
      requires Dates.Valid(d)
      ensures Valid() && cursorDate == d && cursorIdx == 0 && this.startWeekDay == startWeekDay
      ensures weekViewed.None? && todayToggleDate.None? && lastCursor.None?
      ensures visible == [] && dayEntCount == [0, 0, 0, 0, 0, 0, 0]
    {
      cursorDate := d;
      cursorIdx := 0;
      todayToggleDate := None;
      weekViewed := None;
      visible := [];
      dayEntCount := [0, 0, 0, 0, 0, 0, 0];
      lastCursor := None;
      this.startWeekDay := startWeekDay;
    }

    /** `renew_display`: the next redraw redraws everything. */
    method RenewDisplay()
      requires Valid()
      modifies this
      ensures Valid() && weekViewed.None?
      ensures cursorDate == old(cursorDate) && cursorIdx == old(cursorIdx) && lastCursor == old(lastCursor)
      ensures visible == old(visible) && dayEntCount == old(dayEntCount) && todayToggleDate == old(todayToggleDate)
    {
      weekViewed := None;
    }

    /** The state part of `_set_label_text`: the week viewed becomes the cursor's. */
    method SetLabelText()
      requires Dates.Valid(cursorDate)
      modifies this
      ensures cursorDate == old(cursorDate) && cursorIdx == old(cursorIdx)
      ensures weekViewed == Some(CursorWeek()) && lastCursor.None?
      ensures visible == old(visible) && dayEntCount == old(dayEntCount) && todayToggleDate == old(todayToggleDate)
    {
      lastCursor := None;
      weekViewed := Some(CursorWeek());
    }

    /**
     * `_set_entry_text`: `occs` is the calendar's occurrence list for the
     * cursor's week; each day's count is taken from it.
     */
    method SetEntryText(occs: seq<Occurrence>)
      requires Dates.Valid(cursorDate) && OccsValid(occs)
      requires todayToggleDate.Some? ==> Dates.Valid(todayToggleDate.value)
      modifies this
      ensures cursorDate == old(cursorDate) && cursorIdx == old(cursorIdx)
      ensures visible == occs && dayEntCount == DayCounts(occs, CursorWeek()) && lastCursor.None?
      ensures weekViewed == old(weekViewed) && todayToggleDate == old(todayToggleDate)
    {
      lastCursor := None;
      visible := occs;
      dayEntCount := CountDays(occs, CursorWeek());
    }

    /**
     * `_show_cursor`: the index is clamped into the cursor day's entries
     * and the cursor is remembered packed.
     */
    method ShowCursor()
      requires Valid()
      modifies this
      ensures Valid() && cursorIdx == Clamp(old(cursorIdx), dayEntCount[CursorDay()])
      ensures lastCursor == Some(PackCursor(CursorDay(), cursorIdx))
      ensures cursorDate == old(cursorDate) && weekViewed == old(weekViewed) && todayToggleDate == old(todayToggleDate)
      ensures visible == old(visible) && dayEntCount == old(dayEntCount)
    {
      var dy := CursorDay();
      var ecount: int := dayEntCount[dy];
      var i := cursorIdx;
      if i < 0 || i >= ecount {
        i := if ecount - 1 > 0 then ecount - 1 else 0;
        cursorIdx := i;
      }
      var _ := HideCursor();
      lastCursor := Some(PackCursor(dy, i));
    }

    /** `_hide_cursor`: the (day, index) the cursor was drawn at, which it then forgets. */
    method HideCursor() returns (cell: Option<(int, int)>)
      requires Valid()
      modifies this
      ensures Valid() && lastCursor.None?
      ensures cell == if old(lastCursor).None? then None else Some(UnpackCursor(old(lastCursor).value))
      ensures cursorDate == old(cursorDate) && cursorIdx == old(cursorIdx) && weekViewed == old(weekViewed)
      ensures visible == old(visible) && dayEntCount == old(dayEntCount) && todayToggleDate == old(todayToggleDate)
    {
      cell := None;
      if lastCursor.Some? {
        cell := Some(UnpackCursor(lastCursor.value));
        lastCursor := None;
      }
    }

    /**
     * `redraw`: a new week is labelled and its entries counted afresh
     * (so are the entries when `enChanges`), then the cursor is shown.
     * `occs` is the calendar's occurrence list for the cursor's week.
     */
    method Redraw(enChanges: bool, occs: seq<Occurrence>)
      requires Valid() && OccsValid(occs)
      modifies this
      ensures Drawn() && cursorDate == old(cursorDate) && todayToggleDate == old(todayToggleDate)
      ensures cursorIdx == Clamp(old(cursorIdx), dayEntCount[CursorDay()])
      ensures lastCursor == Some(PackCursor(CursorDay(), cursorIdx))
      ensures enChanges || old(weekViewed) != Some(CursorWeek()) ==>
        visible == occs && dayEntCount == DayCounts(occs, CursorWeek())
      ensures !enChanges && old(weekViewed) == Some(CursorWeek()) ==>
        visible == old(visible) && dayEntCount == old(dayEntCount)
    {
      var changes := enChanges;
      if weekViewed != Some(CursorWeek()) {
        SetLabelText();
        changes := true;
      }
      if changes {
        SetEntryText(occs);
      }
      ShowCursor();
    }

    /**
     * `get_cursor_entry`: None on a day without entries; otherwise the
     * entry of the occurrence counted before it by the earlier days plus
     * the cursor index. On a drawn view over a sorted list, that
     * occurrence starts on the cursor's day.
     */
    method GetCursorEntry() returns (r: Option<Entry>)
      requires Drawn()
      ensures r.None? <==> dayEntCount[CursorDay()] == 0
      ensures r.Some? ==> var j := Sum(dayEntCount[..CursorDay()]) + cursorIdx;
        j < |visible| && r.value == visible[j].0
        && (SortedOccs(visible) ==>
             Key(visible[j].1) < Key(DateM(cursorDate)) + DayUs
             && (CursorDay() > 0 ==> Key(DateM(cursorDate)) <= Key(visible[j].1)))
    {
      var dy := CursorDay();
      if dayEntCount[dy] == 0 {
        return None;
      }
      ghost var w := CursorWeek();
      assert dayEntCount == DayCounts(visible, w);
      assert 0 <= cursorIdx < dayEntCount[dy];
      var i := Sum(dayEntCount[..dy]) + cursorIdx;
      CursorEntryInRange(visible, w, dy, cursorIdx);
      CursorDayBounds(w, cursorDate, dy);
      if SortedOccs(visible) && dy > 0 {
        CursorEntryOnDay(visible, w, dy, cursorIdx);
      }
      r := Some(visible[i].0);
    }

    /** `cursor_inc`: the cursor date moves by `days`, and takes index `idx` when one is given. */
    method CursorInc(days: int, idx: Option<int>)
      requires Valid()
      modifies this
      ensures Valid() && cursorDate == AddDays(old(cursorDate), days)
      ensures cursorIdx == if idx.Some? then idx.value else old(cursorIdx)
      ensures weekViewed == old(weekViewed) && visible == old(visible) && dayEntCount == old(dayEntCount)
      ensures todayToggleDate == old(todayToggleDate) && lastCursor == old(lastCursor)
    {
      cursorDate := AddDays(cursorDate, days);
      if idx.Some? {
        cursorIdx := idx.value;
      }
    }

    /**
     * `_cursor_move_up`: one entry up; above the first entry, to the day
     * before with index -1, which the next redraw clamps to that day's
     * last entry.
     */
    method CursorMoveUp()
      requires Valid()
      modifies this
      ensures Valid() && weekViewed == old(weekViewed) && visible == old(visible) && dayEntCount == old(dayEntCount)
      ensures old(cursorIdx) <= 0 ==>
        cursorDate == AddDays(old(cursorDate), -1) && cursorIdx == old(cursorIdx) - 1 && todayToggleDate.None?
      ensures old(cursorIdx) > 0 ==>
        cursorDate == old(cursorDate) && todayToggleDate == old(todayToggleDate)
        && cursorIdx == Clamp(old(cursorIdx) - 1, dayEntCount[CursorDay()])
        && lastCursor == Some(PackCursor(CursorDay(), cursorIdx))
    {
      cursorIdx := cursorIdx - 1;
      if cursorIdx < 0 {
        CursorInc(-1, None);
        todayToggleDate := None;
      } else {
        ShowCursor();
      }
    }

    /** `_cursor_move_dn`: one entry down; below the last entry, to the first entry of the next day. */
    method CursorMoveDn()
      requires Valid()
      modifies this
      ensures Valid() && weekViewed == old(weekViewed) && visible == old(visible) && dayEntCount == old(dayEntCount)
      ensures old(cursorIdx) + 1 >= old(dayEntCount)[old(CursorDay())] ==>
        cursorDate == AddDays(old(cursorDate), 1) && cursorIdx == 0 && todayToggleDate.None?
      ensures old(cursorIdx) + 1 < old(dayEntCount)[old(CursorDay())] ==>
        cursorDate == old(cursorDate) && todayToggleDate == old(todayToggleDate)
        && cursorIdx == Clamp(old(cursorIdx) + 1, dayEntCount[CursorDay()])
        && lastCursor == Some(PackCursor(CursorDay(), cursorIdx))
    {
      cursorIdx := cursorIdx + 1;
      var dy := CursorDay();
      if cursorIdx >= dayEntCount[dy] {
        CursorInc(1, Some(0));
        todayToggleDate := None;
      } else {
        ShowCursor();
      }
    }

    /** `_cursor_move_lt`: see `PageMoves` for where it lands. */
    method CursorMoveLt()
      requires Valid()
      modifies this
      ensures Valid() && weekViewed == old(weekViewed) && visible == old(visible) && dayEntCount == old(dayEntCount)
      ensures cursorDate == AddDays(old(cursorDate), LeftDelta(old(CursorDay())))
      ensures cursorIdx == 0 && todayToggleDate.None?
      ensures CursorDay() == (old(CursorDay()) + LeftDelta(old(CursorDay()))) % 7
    {
      var i := CursorDay();
      DayInWeekAfter(cursorDate, LeftDelta(i), startWeekDay);
      CursorInc(LeftDelta(i), Some(0));
      todayToggleDate := None;
    }

    /** `_cursor_move_rt`: see `PageMoves` for where it lands. */
    method CursorMoveRt()
      requires Valid()
      modifies this
      ensures Valid() && weekViewed == old(weekViewed) && visible == old(visible) && dayEntCount == old(dayEntCount)
      ensures cursorDate == AddDays(old(cursorDate), RightDelta(old(CursorDay())))
      ensures cursorIdx == 0 && todayToggleDate.None?
      ensures CursorDay() == (old(CursorDay()) + RightDelta(old(CursorDay()))) % 7
    {
      var i := CursorDay();
      DayInWeekAfter(cursorDate, RightDelta(i), startWeekDay);
      CursorInc(RightDelta(i), Some(0));
      todayToggleDate := None;
    }
  }
}
