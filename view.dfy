/**
 * What the week and year views share: the icons and end time shown after
 * an entry's summary, the status style class, the marker in front of an
 * entry, the scroll that reveals a row of a day's entry list and the
 * mapping from a click's y-coordinate to a row.
 */
module View {
  import opened Wrappers
  import opened Dates
  import opened Text
  import opened Entries
  import opened Util

  // ---------------------------------------------------------------------
  // Icons and end times

  const AlarmIcon: char := '♫'
  const RepeatIcon: char := '⟳'

  /**
   * `entry_icons`: the alarm icon when the entry has a VALARM, then the
   * repeat icon when it has an RRULE; a leading space only when asked for
   * and there is an icon.
   */
  function EntryIcons(props: map<string, Value>, alarmCount: nat, prefixSpace: bool): (r: string)
    ensures AlarmIcon in r <==> alarmCount > 0
    ensures RepeatIcon in r <==> "RRULE" in props
    ensures |r| == (if alarmCount > 0 then 1 else 0) + (if "RRULE" in props then 1 else 0)
      + (if prefixSpace && r != "" then 1 else 0)
    ensures r != "" ==> (r[0] == ' ' <==> prefixSpace)
    ensures "RRULE" in props ==> r[|r| - 1] == RepeatIcon
  {
    var icons := (if alarmCount > 0 then [AlarmIcon] else []) + (if "RRULE" in props then [RepeatIcon] else []);
    if prefixSpace && icons != "" then " " + icons else icons
  }

  /**
   * What `entry_endtime` shows: nothing, the last day of an all-day entry,
   * the end time alone when the entry ends on its start day, or the end
   * date and time. `withYear` is set when the end falls in another year
   * than the start. The text formats themselves are locale-dependent.
   */
  datatype EndShown =
    | NoEnd
    | LastDay(d: Date, withYear: bool)
    | EndTimeOnly(at: Moment)
    | EndDateTime(at: Moment, withYear: bool)

  /** The day a datetime end falls on: the date one millisecond before it. */
  function EndDay(e: Moment): (d: Date)
    requires ValidM(e) && e.TimeM?
    ensures Valid(d) && Ordinal(d) * DayUs <= Key(e) - MsUs < Ordinal(d) * DayUs + DayUs
  {
    var b := AddUs(e, -MsUs);
    KeySplit(b);
    b.date
  }

  function EntryEndtime(st: Moment, end: Option<Moment>): (r: EndShown)
    requires ValidM(st) && (end.Some? ==> ValidM(end.value))
    ensures r.NoEnd? <==> (end.None? || Key(end.value) <= Key(st)
      || (st.DateM? && end.value.DateM? && Ordinal(end.value.date) <= Ordinal(st.date) + 1))
    ensures r.LastDay? <==> !r.NoEnd? && st.DateM? && end.value.DateM?
    ensures r.LastDay? ==> end.Some? && Valid(r.d) && Ordinal(r.d) == Ordinal(end.value.date) - 1 && r.withYear == (st.date.year != r.d.year)
    ensures r.EndTimeOnly? || r.EndDateTime? ==> r.at == DateToDatetime(end.value)
    ensures r.EndTimeOnly? <==> (!r.NoEnd? && !r.LastDay?
      && Key(DateM(st.date)) <= Key(DateToDatetime(end.value)) - MsUs < Key(DateM(st.date)) + DayUs)
    ensures r.EndDateTime? ==> r.withYear == (st.date.year != EndDay(r.at).year)
  {
    if end.None? || DtLte(end.value, st) then NoEnd
    else if st.DateM? && end.value.DateM? then
      var endDate := AddDays(end.value.date, -1);
      OrdinalOrder(st.date, endDate);
      if !Before(st.date, endDate) then NoEnd
      else LastDay(endDate, st.date.year != endDate.year)
    else
      var e := DateToDatetime(end.value);
      var endDate := EndDay(e);
      if st.date == endDate then EndTimeOnly(e)
      else
        assert Ordinal(st.date) != Ordinal(endDate) by { OrdinalOrder(st.date, endDate); }
        EndDateTime(e, st.date.year != endDate.year)
  }

  /** Only a lasting all-day entry shows a last day, and it lies after the start day. */
  lemma OneDayEventsShowNoEnd(st: Date, end: Date)
    requires Valid(st) && Valid(end) && Ordinal(end) == Ordinal(st) + 1
    ensures EntryEndtime(DateM(st), Some(DateM(end))) == NoEnd
  {
  }

  // ---------------------------------------------------------------------
  // Styles and markers

  /** `add_event_styles`: the style class added for the entry's STATUS, if any. */
  function StatusClass(props: map<string, Value>): (r: Option<string>)
    requires "STATUS" in props ==> props["STATUS"].Text?
    ensures r.Some? <==> "STATUS" in props && props["STATUS"].s in {"TENTATIVE", "CONFIRMED", "CANCELLED"}
    ensures r.Some? ==> Upper(r.value) == props["STATUS"].s
    ensures r.Some? ==> forall i :: 0 <= i < |r.value| ==> 'a' <= r.value[i] <= 'z'
  {
    if "STATUS" in props && props["STATUS"].s in {"TENTATIVE", "CONFIRMED", "CANCELLED"} then
      var s := props["STATUS"].s;
      UpperLowerCapitals(s);
      Some(Lower(s))
    else None
  }

  /** Lowering then raising a word of capital letters gives it back. */
  lemma UpperLowerCapitals(s: string)
    requires forall i :: 0 <= i < |s| ==> 'A' <= s[i] <= 'Z'
    ensures Upper(Lower(s)) == s
  {
    var l := Lower(s);
    forall i | 0 <= i < |s|
      ensures Upper(l)[i] == s[i]
    {
      assert l[i] == LowerChar(s[i]);
    }
  }

  const Bullet := "•"
  const BulletAllDay := "‣"
  const BulletTodo := "\U{1F163}"

  /** The marker in front of an entry: its start time, or a bullet. */
  datatype Marker = TimeMark(at: Moment) | BulletMark(b: string)

  /**
   * `marker_label`: the time for an entry starting at a time of day; else
   * the to-do bullet for a to-do, the all-day bullet for an event with a
   * DTEND, and the plain bullet for any other event.
   */
  function MarkerLabel(kind: Kind, props: map<string, Value>, st: Moment): (r: Marker)
    ensures r.TimeMark? <==> st.TimeM?
    ensures r.TimeMark? ==> r.at == st
    ensures r == BulletMark(BulletTodo) <==> st.DateM? && kind.Todo?
    ensures r == BulletMark(BulletAllDay) <==> st.DateM? && kind.Event? && "DTEND" in props
    ensures r == BulletMark(Bullet) <==> st.DateM? && kind.Event? && "DTEND" !in props
  {
    assert Bullet != BulletAllDay && Bullet != BulletTodo && BulletAllDay != BulletTodo by {
      assert Bullet[0] != BulletAllDay[0] && Bullet[0] != BulletTodo[0] && BulletAllDay[0] != BulletTodo[0];
    }
    if st.TimeM? then TimeMark(st)
    else if kind.Todo? then BulletMark(BulletTodo)
    else if "DTEND" in props then BulletMark(BulletAllDay)
    else BulletMark(Bullet)
  }

  // ---------------------------------------------------------------------
  // Scrolling and hit testing

  /** The vertical adjustment of a scrolled window. */
  class Adjustment {
    var value: real

    constructor (v: real)
      ensures value == v
    {
      value := v;
    }
  }

  /** Row heights and the style sizes `scroll_to_row` reads, in pixels. */
  datatype RowBox = RowBox(spacing: int, heights: seq<nat>, padTop: int, padBottom: int, bordTop: int, margTop: int)

  /** The scroll value that shows the top of row `row`. */
  function RowTop(b: RowBox, row: int): int
    requires 0 <= row < |b.heights|
  {
    b.spacing * row + Sum(b.heights[..row]) + b.bordTop + b.margTop + (b.padTop + 1) / 2
  }

  /**
   * The scroll value that shows the bottom of row `row` in a window
   * `viewHeight` high, but never more than `RowTop`, so that a row taller
   * than the window shows its top.
   */
  function RowBottom(b: RowBox, row: int, viewHeight: int): (bot: int)
    requires 0 <= row < |b.heights|
    ensures bot <= RowTop(b, row)
  {
    var raw := b.spacing * row + Sum(b.heights[..row]) + b.heights[row] - viewHeight
      + b.padTop + b.bordTop + b.margTop + (b.padBottom + 1) / 2;
    if raw > RowTop(b, row) then RowTop(b, row) else raw
  }

  /** The height of the rows above row `row`, by the loop of `scroll_to_row`. */
  method HeightAbove(heights: seq<nat>, row: int) returns (h: nat)
    requires 0 <= row <= |heights|
    ensures h == Sum(heights[..row])
  {
    h := 0;
    var i := 0;
    while i < row
      invariant 0 <= i <= row && h == Sum(heights[..i])
    {
      assert heights[..i + 1][..i] == heights[..i];
      h := h + heights[i];
      i := i + 1;
    }
  }

  /**
   * `scroll_to_row`: scroll just enough to show row `row`: to its top when
   * the window is below it, to its bottom when above, and not at all when
   * it is already in view.
   */
  method ScrollToRow(b: RowBox, row: int, viewHeight: int, adj: Adjustment) returns (again: bool)
    requires 0 <= row < |b.heights|
    modifies adj
    ensures !again
    ensures RowBottom(b, row, viewHeight) as real <= adj.value <= RowTop(b, row) as real
    ensures RowBottom(b, row, viewHeight) as real <= old(adj.value) <= RowTop(b, row) as real ==> adj.value == old(adj.value)
  {
    var above := HeightAbove(b.heights, row);
    var top := b.spacing * row + above;
    var bot := top + b.heights[row];
    bot := bot - viewHeight;
    top := top + b.bordTop + b.margTop + (b.padTop + 1) / 2;
    bot := bot + b.padTop + b.bordTop + b.margTop + (b.padBottom + 1) / 2;
    if bot > top {
      bot := top;
    }
    var v := adj.value;
    if (top as real) < v {
      adj.value := top as real;
    } else if v < bot as real {
      adj.value := bot as real;
    }
    again := false;
  }

  /** The y-coordinate of the top of the first row, as `y_to_day_row` starts its walk. */
  function RowsStart(b: RowBox, scroll: Option<real>): real {
    (b.padTop + b.bordTop + b.margTop) as real - b.spacing as real / 2.0
      - (if scroll.Some? then scroll.value else 0.0)
  }

  /** The y-coordinate, relative to the click, that ends row i (its spacing included). */
  function RowEnd(start: real, heights: seq<nat>, spacing: int, i: int): real
    requires 0 <= i < |heights|
  {
    start + (Sum(heights[..i + 1]) + spacing * (i + 1)) as real
  }

  /**
   * `y_to_day_row`: with at most one row, row 0; otherwise the first of
   * the `maxrow` rows whose end lies below y, or the last row when y lies
   * below them all.
   */
  method YToDayRow(b: RowBox, y: real, maxrow: int, scroll: Option<real>) returns (row: int)
    requires maxrow <= |b.heights|
    ensures maxrow <= 1 ==> row == 0
    ensures maxrow > 1 ==> 0 <= row < maxrow
    ensures maxrow > 1 ==> forall i :: 0 <= i < row ==> RowEnd(RowsStart(b, scroll), b.heights, b.spacing, i) <= y
    ensures maxrow > 1 && row < maxrow - 1 ==> RowEnd(RowsStart(b, scroll), b.heights, b.spacing, row) > y
  {
    if maxrow <= 1 {
      return 0;
    }
    var start := RowsStart(b, scroll);
    var yc := start;
    row := -1;
    var i := 0;
    while i < maxrow
      invariant 0 <= i <= maxrow && row == i - 1
      invariant yc == start + (Sum(b.heights[..i]) + b.spacing * i) as real
      invariant forall k :: 0 <= k < i ==> RowEnd(start, b.heights, b.spacing, k) <= y
    {
      row := row + 1;
      assert b.heights[..i + 1][..i] == b.heights[..i];
      yc := yc + b.heights[i] as real;
      yc := yc + b.spacing as real;
      if yc > y {
        return;
      }
      i := i + 1;
    }
  }
}
