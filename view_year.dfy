/**
 * The year view's grid: one row per month and 37 columns, a date's column
 * being its day of the month shifted by the weekday its month starts on
 * (counted from the configured first day of the week). The grid cursor's
 * moves and the entry cursor's clamping are the view's state.
 */
module YearView {
  import opened Wrappers
  import opened Dates
  import opened Util

  const GridColumns := 37
  const GridRows := 12

  /** Columns left blank before day 1 of month m of year yr. */
  function Lead(yr: int, m: int, startWeekDay: int): (k: int)
    requires 1 <= m <= 12
    ensures 0 <= k < 7
  {
    (FirstWeekday(yr, m) - startWeekDay) % 7
  }

  /** `_date_to_cell`: the (column, row) of a date in the grid. */
  function DateToCell(d: Date, startWeekDay: int): (c: (int, int))
    requires Valid(d)
    ensures 0 <= c.0 < GridColumns && c.1 == d.month - 1 && 0 <= c.1 < GridRows
    ensures c.0 - Lead(d.year, d.month, startWeekDay) == d.day - 1
  {
    (d.day - 1 + Lead(d.year, d.month, startWeekDay), d.month - 1)
  }

  /**
   * `_cell_to_date_clamped`: the date shown in cell (x, y) of year yr; a
   * cell before the month's first day gives day 1 and one after its last
   * day gives the last day.
   */
  function CellToDateClamped(x: int, y: int, yr: int, startWeekDay: int): (r: Date)
    requires 0 <= y < GridRows
    ensures Valid(r) && r.year == yr && r.month == y + 1
    ensures x - Lead(yr, y + 1, startWeekDay) < 0 ==> r.day == 1
    ensures x - Lead(yr, y + 1, startWeekDay) >= DaysInMonth(yr, y + 1) ==> r.day == DaysInMonth(yr, y + 1)
  {
    var m := y + 1;
    var d := x + 1 - Lead(yr, m, startWeekDay);
    Date(yr, m, if d < 1 then 1 else if d < DaysInMonth(yr, m) then d else DaysInMonth(yr, m))
  }

  /** A date's cell leads back to that date. */
  lemma CellRoundTrip(d: Date, startWeekDay: int)
    requires Valid(d)
    ensures var c := DateToCell(d, startWeekDay);
      CellToDateClamped(c.0, c.1, d.year, startWeekDay) == d
  {
  }

  /** A cell inside the month's span of columns shows the date whose cell it is. */
  lemma CellInsideMonth(x: int, y: int, yr: int, startWeekDay: int)
    requires 0 <= y < GridRows
    requires 0 <= x - Lead(yr, y + 1, startWeekDay) < DaysInMonth(yr, y + 1)
    ensures DateToCell(CellToDateClamped(x, y, yr, startWeekDay), startWeekDay) == (x, y)
  {
    var lead := Lead(yr, y + 1, startWeekDay);
    var r := CellToDateClamped(x, y, yr, startWeekDay);
    assert r == Date(yr, y + 1, x + 1 - lead);
  }

  /** The month before and after a month, as (year, row) of the grid. */
  function PrevMonthRow(d: Date): (p: (int, int))
    requires Valid(d)
    ensures 0 <= p.1 < GridRows
    ensures p.0 * 12 + p.1 == MonthIndex(d) - 1
  {
    if d.month - 2 < 0 then (d.year - 1, 11) else (d.year, d.month - 2)
  }

  function NextMonthRow(d: Date): (p: (int, int))
    requires Valid(d)
    ensures 0 <= p.1 < GridRows
    ensures p.0 * 12 + p.1 == MonthIndex(d) + 1
  {
    if d.month > 11 then (d.year + 1, 0) else (d.year, d.month)
  }

  /** The cursor state the year view keeps (class fields of `View` and `View_Year`). */
  class YearCursor {
    var cursorDate: Date
    var cursorIdx: int
    /** The column up/down moves aim for; None after any other move. */
    var targetCol: Option<int>
    var todayToggleDate: Option<Date>
    var todayToggleIdx: int
    /** The number of entries listed for the cursor date. */
    var dateContentCount: nat
    /** The configured first day of the week, 0 = Monday. */
    const startWeekDay: int

    ghost predicate Valid()
      reads this
    {
      Dates.Valid(cursorDate)
      && (targetCol.Some? ==> 0 <= targetCol.value < GridColumns)
      && (todayToggleDate.Some? ==> Dates.Valid(todayToggleDate.value))
    }

    constructor (d: Date, startWeekDay: int)
      requires Dates.Valid(d)
      ensures Valid() && cursorDate == d && cursorIdx == 0 && this.startWeekDay == startWeekDay
      ensures targetCol.None? && todayToggleDate.None? && dateContentCount == 0
    {
      cursorDate := d;
      cursorIdx := 0;
      targetCol := None;
      todayToggleDate := None;
      todayToggleIdx := 0;
      dateContentCount := 0;
      this.startWeekDay := startWeekDay;
    }

    /** `cursor_set_date`. */
    method CursorSetDate(d: Date, idx: int, resetTargetCol: bool)
      requires Valid() && Dates.Valid(d)
      modifies this
      ensures Valid() && cursorDate == d && cursorIdx == idx
      ensures targetCol == if resetTargetCol then None else old(targetCol)
      ensures todayToggleDate == old(todayToggleDate) && todayToggleIdx == old(todayToggleIdx)
      ensures dateContentCount == old(dateContentCount)
    {
      cursorDate := d;
      cursorIdx := idx;
      if resetTargetCol {
        targetCol := None;
      }
    }

    /** The column up/down/page moves aim for: the saved one, else the cursor's own. */
    method TargetColumn() returns (col: int)
      requires Valid()
      modifies this
      ensures Valid() && targetCol == Some(col)
      ensures old(targetCol).Some? ==> col == old(targetCol).value
      ensures old(targetCol).None? ==> col == DateToCell(cursorDate, startWeekDay).0
      ensures cursorDate == old(cursorDate) && cursorIdx == old(cursorIdx)
      ensures todayToggleDate == old(todayToggleDate) && todayToggleIdx == old(todayToggleIdx)
      ensures dateContentCount == old(dateContentCount)
    {
      if targetCol.None? {
        targetCol := Some(DateToCell(cursorDate, startWeekDay).0);
      }
      col := targetCol.value;
    }

    /**
     * `_cursor_move_up`: to the previous month, December of the year
     * before from January, in the target column (clamped into the month).
     */
    method CursorMoveUp()
      requires Valid()
      modifies this
      ensures Valid() && targetCol.Some? && cursorIdx == 0 && todayToggleDate.None? && todayToggleIdx == old(todayToggleIdx)
      ensures old(targetCol).Some? ==> targetCol == old(targetCol)
      ensures MonthIndex(cursorDate) == MonthIndex(old(cursorDate)) - 1
      ensures old(cursorDate).month == 1 ==> cursorDate.month == 12 && cursorDate.year == old(cursorDate).year - 1
      ensures var p := PrevMonthRow(old(cursorDate));
        cursorDate == CellToDateClamped(targetCol.value, p.1, p.0, startWeekDay)
    {
      var col := TargetColumn();
      var p := PrevMonthRow(cursorDate);
      CursorSetDate(CellToDateClamped(col, p.1, p.0, startWeekDay), 0, false);
      todayToggleDate := None;
    }

    /** `_cursor_move_dn`: to the next month, January of the next year from December. */
    method CursorMoveDn()
      requires Valid()
      modifies this
      ensures Valid() && targetCol.Some? && cursorIdx == 0 && todayToggleDate.None? && todayToggleIdx == old(todayToggleIdx)
      ensures old(targetCol).Some? ==> targetCol == old(targetCol)
      ensures MonthIndex(cursorDate) == MonthIndex(old(cursorDate)) + 1
      ensures old(cursorDate).month == 12 ==> cursorDate.month == 1 && cursorDate.year == old(cursorDate).year + 1
      ensures var p := NextMonthRow(old(cursorDate));
        cursorDate == CellToDateClamped(targetCol.value, p.1, p.0, startWeekDay)
    {
      var col := TargetColumn();
      var p := NextMonthRow(cursorDate);
      CursorSetDate(CellToDateClamped(col, p.1, p.0, startWeekDay), 0, false);
      todayToggleDate := None;
    }

    /** `_cursor_move_pgupdn`: the same month d years on, in the target column. */
    method CursorMovePgUpDn(d: int)
      requires Valid()
      modifies this
      ensures Valid() && targetCol.Some? && cursorIdx == 0 && todayToggleDate.None? && todayToggleIdx == old(todayToggleIdx)
      ensures cursorDate.year == old(cursorDate).year + d && cursorDate.month == old(cursorDate).month
      ensures cursorDate == CellToDateClamped(targetCol.value, old(cursorDate).month - 1, old(cursorDate).year + d, startWeekDay)
    {
      var col := TargetColumn();
      var cur := cursorDate;
      CursorSetDate(CellToDateClamped(col, cur.month - 1, cur.year + d, startWeekDay), 0, false);
      todayToggleDate := None;
    }

    /** `_cursor_move_stmon`: day 1 of the cursor's month. */
    method CursorMoveStmon()
      requires Valid()
      modifies this
      ensures Valid() && targetCol.None? && cursorIdx == 0 && todayToggleDate.None?
      ensures cursorDate == Date(old(cursorDate).year, old(cursorDate).month, 1)
    {
      CursorSetDate(cursorDate.(day := 1), 0, true);
      todayToggleDate := None;
    }

    /** `_cursor_move_endmon`: the last day of the cursor's month. */
    method CursorMoveEndmon()
      requires Valid()
      modifies this
      ensures Valid() && targetCol.None? && cursorIdx == 0 && todayToggleDate.None?
      ensures cursorDate == Date(old(cursorDate).year, old(cursorDate).month, DaysInMonth(old(cursorDate).year, old(cursorDate).month))
      ensures NextDay(cursorDate).day == 1
    {
      CursorSetDate(cursorDate.(day := DaysInMonth(cursorDate.year, cursorDate.month)), 0, true);
      todayToggleDate := None;
    }

    /**
     * `_cursor_move_today`: away from today, remember the place and go to
     * today; on today, go back to the remembered place if there is one.
     */
    method CursorMoveToday(today: Date)
      requires Valid() && Dates.Valid(today)
      modifies this
      ensures Valid()
      ensures old(cursorDate) != today ==>
        cursorDate == today && cursorIdx == 0 && targetCol.None?
        && todayToggleDate == Some(old(cursorDate)) && todayToggleIdx == old(cursorIdx)
      ensures old(cursorDate) == today && old(todayToggleDate).Some? ==>
        cursorDate == old(todayToggleDate).value && cursorIdx == old(todayToggleIdx) && targetCol.None?
      ensures old(cursorDate) == today && old(todayToggleDate).None? ==>
        cursorDate == old(cursorDate) && cursorIdx == old(cursorIdx) && targetCol == old(targetCol)
      ensures old(cursorDate) == today ==> todayToggleDate == old(todayToggleDate) && todayToggleIdx == old(todayToggleIdx)
    {
      if cursorDate != today {
        todayToggleDate := Some(cursorDate);
        todayToggleIdx := cursorIdx;
        CursorSetDate(today, 0, true);
      } else if todayToggleDate.Some? {
        CursorSetDate(todayToggleDate.value, todayToggleIdx, true);
      }
    }

    /**
     * The index clamping of `_show_entry_cursor`: 0 when the date has no
     * entries, the last entry when the index is out of range.
     */
    method ShowEntryCursor()
      requires Valid()
      modifies this
      ensures Valid() && cursorDate == old(cursorDate) && targetCol == old(targetCol)
      ensures dateContentCount == old(dateContentCount) && todayToggleDate == old(todayToggleDate)
      ensures cursorIdx == Clamp(old(cursorIdx), dateContentCount)
    {
      if dateContentCount == 0 {
        cursorIdx := 0;
        return;
      }
      if cursorIdx < 0 || cursorIdx >= dateContentCount {
        cursorIdx := dateContentCount - 1;
      }
    }

    /** `_idxcursor_move_up`: one entry up when not on the first, then the clamping of `_show_entry_cursor`. */
    method IdxCursorMoveUp()
      requires Valid()
      modifies this
      ensures Valid() && cursorDate == old(cursorDate) && targetCol == old(targetCol)
      ensures dateContentCount == old(dateContentCount) && todayToggleDate == old(todayToggleDate)
      ensures old(cursorIdx) <= 0 ==> cursorIdx == old(cursorIdx)
      ensures 0 < old(cursorIdx) <= dateContentCount ==> cursorIdx == old(cursorIdx) - 1
      ensures old(cursorIdx) > 0 ==> cursorIdx == Clamp(old(cursorIdx) - 1, dateContentCount)
    {
      if cursorIdx > 0 {
        cursorIdx := cursorIdx - 1;
        ShowEntryCursor();
      }
    }

    /** `_idxcursor_move_dn`: one entry down when not on the last. */
    method IdxCursorMoveDn()
      requires Valid()
      modifies this
      ensures Valid() && cursorDate == old(cursorDate) && targetCol == old(targetCol)
      ensures dateContentCount == old(dateContentCount) && todayToggleDate == old(todayToggleDate)
      ensures old(cursorIdx) >= dateContentCount - 1 ==> cursorIdx == old(cursorIdx)
      ensures 0 <= old(cursorIdx) < dateContentCount - 1 ==> cursorIdx == old(cursorIdx) + 1
      ensures old(cursorIdx) < dateContentCount - 1 ==> cursorIdx == Clamp(old(cursorIdx) + 1, dateContentCount)
    {
      if cursorIdx < dateContentCount - 1 {
        cursorIdx := cursorIdx + 1;
        ShowEntryCursor();
      }
    }
  }
}
