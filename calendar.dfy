/**
 * The calendar layer over the recurrence engine: connector flags, editing
 * an entry's fields and STATUS, building DTEND or DURATION from the entry
 * details, the day-crossing test, and the occurrence list that splices the
 * repeats of every repeating event into the sorted list of single events.
 */
module Calendar {
  import opened Wrappers
  import opened Dates
  import opened Entries
  import opened Util
  import opened Info
  import opened RecurRule
  import opened RecurIter

  // ---------------------------------------------------------------------
  // Connector flags

  const ReadOnly: bv8 := 1
  const TypeEvent: bv8 := 2
  const TypeTodo: bv8 := 4
  const TypeAll: bv8 := 6

  function IsReadonly(flags: bv8): (r: bool)
    ensures r <==> flags % 2 == 1
  {
    flags & ReadOnly != 0
  }

  function StoresEvents(flags: bv8): (r: bool)
    ensures r <==> (flags / 2) % 2 == 1
  {
    flags & TypeEvent != 0
  }

  function StoresTodos(flags: bv8): (r: bool)
    ensures r <==> (flags / 4) % 2 == 1
  {
    flags & TypeTodo != 0
  }

  /** TYPE_ALL stores both kinds and is writable; setting READONLY changes nothing else. */
  lemma FlagsIndependent(flags: bv8)
    ensures StoresEvents(TypeAll) && StoresTodos(TypeAll) && !IsReadonly(TypeAll)
    ensures IsReadonly(flags | ReadOnly)
    ensures StoresEvents(flags | ReadOnly) == StoresEvents(flags)
    ensures StoresTodos(flags | ReadOnly) == StoresTodos(flags)
  {
  }

  // ---------------------------------------------------------------------
  // Entry fields

  /** `_del_entry_field`: removes the property when it is present. */
  method DelEntryField(en: Entry, fname: string)
    modifies en
    ensures en.props == old(en.props) - {fname}
    ensures en.alarmCount == old(en.alarmCount)
  {
    if fname in en.props {
      en.props := en.props - {fname};
    }
  }

  /** `_update_entry_field`: replaces the property, or removes it when the value is None. */
  method UpdateEntryField(en: Entry, fname: string, val: Option<Value>)
    modifies en
    ensures val.Some? ==> en.props == old(en.props)[fname := val.value]
    ensures val.None? ==> en.props == old(en.props) - {fname}
    ensures en.alarmCount == old(en.alarmCount)
  {
    if fname in en.props {
      en.props := en.props - {fname};
    }
    if val.Some? {
      en.props := en.props[fname := val.value];
    }
  }

  // ---------------------------------------------------------------------
  // STATUS (section 3.8.1.11 of RFC 5545)

  const StatusListEvent: seq<string> := ["TENTATIVE", "CONFIRMED", "CANCELLED"]
  const StatusListTodo: seq<string> := ["NEEDS-ACTION", "IN-PROCESS", "COMPLETED", "CANCELLED"]

  /** The STATUS values section 3.8.1.11 of RFC 5545 allows for the entry's component. */
  predicate StatusAllowed(kind: Kind, stat: string) {
    if kind == Event then stat in StatusListEvent else stat in StatusListTodo
  }

  /** The properties STATUS handling may change; every other property is left alone. */
  predicate StatusField(p: string) {
    p == "STATUS" || p == "PERCENT-COMPLETE" || p == "COMPLETED"
  }

  /**
   * `_add_status_entry` on an entry without STATUS. COMPLETED drops
   * PERCENT-COMPLETE; any other value (None included) drops the COMPLETED
   * date and lowers a PERCENT-COMPLETE of 100 to 99. The STATUS itself is
   * stored only when it is allowed for the component.
   */
  function AddStatus(props: map<string, Value>, kind: Kind, stat: Option<string>): (r: map<string, Value>)
    requires "STATUS" !in props
    ensures "STATUS" in r <==> stat.Some? && StatusAllowed(kind, stat.value)
    ensures "STATUS" in r ==> r["STATUS"] == Text(stat.value)
    ensures stat == Some("COMPLETED") ==>
      "PERCENT-COMPLETE" !in r && ("COMPLETED" in r <==> "COMPLETED" in props)
      && ("COMPLETED" in r ==> r["COMPLETED"] == props["COMPLETED"])
    ensures stat != Some("COMPLETED") ==>
      "COMPLETED" !in r && ("PERCENT-COMPLETE" in r <==> "PERCENT-COMPLETE" in props)
    ensures stat != Some("COMPLETED") && "PERCENT-COMPLETE" in props ==>
      r["PERCENT-COMPLETE"] == (if props["PERCENT-COMPLETE"] == Num(100) then Num(99) else props["PERCENT-COMPLETE"])
    ensures forall p :: !StatusField(p) ==> (p in r <==> p in props) && (p in r ==> r[p] == props[p])
  {
    var pc := "PERCENT-COMPLETE";
    var cleared :=
      if stat == Some("COMPLETED") then props - {pc}
      else if pc in props && props[pc] == Num(100) then props[pc := Num(99)] - {"COMPLETED"}
      else props - {"COMPLETED"};
    if stat.Some? && StatusAllowed(kind, stat.value) then cleared["STATUS" := Text(stat.value)]
    else cleared
  }

  datatype StatusError = ReadOnlyCalendar

  /** DTSTAMP and LAST-MODIFIED set to the time of the edit. */
  function Stamped(props: map<string, Value>, now: Moment): (r: map<string, Value>)
    ensures "DTSTAMP" in r && r["DTSTAMP"] == When(now, false)
    ensures "LAST-MODIFIED" in r && r["LAST-MODIFIED"] == When(now, false)
    ensures forall p :: p != "DTSTAMP" && p != "LAST-MODIFIED" ==> (p in r <==> p in props) && (p in r ==> r[p] == props[p])
  {
    props["DTSTAMP" := When(now, false)]["LAST-MODIFIED" := When(now, false)]
  }

  /**
   * `set_toggle_status_entry` as a function of the entry's properties: the
   * new properties, None when nothing is to be done, or an error for a
   * read-only calendar. Asking for the status the entry already has turns
   * the status off.
   */
  function ToggleStatus(props: map<string, Value>, kind: Kind, readonly: bool, stat: Option<string>, now: Moment)
    : (r: Result<Option<map<string, Value>>, StatusError>)
    ensures r.Err? <==> readonly
    ensures r == Ok(None) <==> !readonly && "STATUS" !in props && stat.None?
    ensures r.Ok? && r.value.Some? ==>
      var p := r.value.value;
      ("STATUS" in p <==>
        stat.Some? && StatusAllowed(kind, stat.value) && !("STATUS" in props && props["STATUS"] == Text(stat.value)))
      && ("STATUS" in p ==> p["STATUS"] == Text(stat.value))
      && "DTSTAMP" in p && p["DTSTAMP"] == When(now, false)
      && "LAST-MODIFIED" in p && p["LAST-MODIFIED"] == When(now, false)
  {
    if readonly then Err(ReadOnlyCalendar)
    else if "STATUS" in props then
      var s := if stat.Some? && props["STATUS"] == Text(stat.value) then None else stat;
      Ok(Some(Stamped(AddStatus(props - {"STATUS"}, kind, s), now)))
    else if stat.None? then Ok(None)
    else Ok(Some(Stamped(AddStatus(props, kind, stat), now)))
  }

  /** Setting an allowed status on an entry without one and then setting it again leaves no status. */
  lemma ToggleTwiceClears(props: map<string, Value>, kind: Kind, stat: string, now: Moment, later: Moment)
    requires "STATUS" !in props && StatusAllowed(kind, stat)
    ensures var once := ToggleStatus(props, kind, false, Some(stat), now);
      once.Ok? && once.value.Some? && "STATUS" in once.value.value
      && var twice := ToggleStatus(once.value.value, kind, false, Some(stat), later);
         twice.Ok? && twice.value.Some? && "STATUS" !in twice.value.value
  {
  }

  /** Setting a status never touches any property but the status fields and the two stamps. */
  lemma ToggleKeepsOthers(props: map<string, Value>, kind: Kind, stat: Option<string>, now: Moment, p: string)
    requires !StatusField(p) && p != "DTSTAMP" && p != "LAST-MODIFIED"
    ensures var r := ToggleStatus(props, kind, false, stat, now);
      r.Ok? && r.value.Some? ==> (p in r.value.value <==> p in props) && (p in props ==> r.value.value[p] == props[p])
  {
  }

  // ---------------------------------------------------------------------
  // DTEND or DURATION from the entry details

  datatype EndError = TypeError

  predicate EndOk(e: EndMark) {
    match e
    case AtMoment(m) => ValidM(m)
    case AtTime(us) => 0 <= us < DayUs
  }

  /**
   * An end time of day for a timed start: on the start's day, or on the
   * next day when it is earlier than the start's time.
   */
  function EndAfterTime(s: Moment, t: int): (e: Moment)
    requires ValidM(s) && s.TimeM? && 0 <= t < DayUs && t != s.us
    ensures ValidM(e) && e.TimeM? && e.us == t
    ensures Key(s) < Key(e) < Key(s) + DayUs
  {
    var e0 := Combine(s.date, t);
    if Key(e0) < Key(s) then AddUs(e0, DayUs) else e0
  }

  /** The DTEND or DURATION of a timed event. */
  function TimedField(s: Moment, end: Option<EndMark>, dur: Option<int>): (r: Option<(string, Value)>)
    requires ValidM(s) && s.TimeM? && (end.Some? ==> EndOk(end.value))
    ensures r.Some? && r.value.0 == "DTEND" ==>
      end.Some? && r.value.1.When? && !r.value.1.tzid && ValidM(r.value.1.at) && r.value.1.at.TimeM?
      && Key(s) < Key(r.value.1.at)
    ensures end.Some? && end.value.AtTime? ==>
      (r.None? <==> end.value.us == s.us)
      && (r.Some? ==> r.value.0 == "DTEND" && Key(r.value.1.at) < Key(s) + DayUs && r.value.1.at.us == end.value.us)
    ensures end.Some? && end.value.AtMoment? ==>
      (r.None? <==> end.value.m.DateM? || Key(end.value.m) <= Key(s))
      && (r.Some? ==> r.value == ("DTEND", When(end.value.m, false)))
    ensures end.None? ==> (r.Some? <==> dur.Some? && dur.value > 0) && (r.Some? ==> r.value == ("DURATION", Span(dur.value)))
  {
    match end
    case Some(AtMoment(e)) =>
      if e.TimeM? && Key(e) > Key(s) then Some(("DTEND", When(e, false))) else None
    case Some(AtTime(t)) =>
      if t == s.us then None else Some(("DTEND", When(EndAfterTime(s, t), false)))
    case None =>
      if dur.Some? && dur.value > 0 then Some(("DURATION", Span(dur.value))) else None
  }

  /** The DTEND or DURATION of a day event; an end datetime cannot be compared with a date. */
  function DayField(s: Moment, end: Option<EndMark>, dur: Option<int>): (r: Result<Option<(string, Value)>, EndError>)
    requires ValidM(s) && s.DateM? && (end.Some? ==> EndOk(end.value))
    ensures r.Err? <==> end.Some? && end.value.AtMoment? && end.value.m.TimeM?
    ensures end.Some? && end.value.AtMoment? && end.value.m.DateM? ==>
      (r == Ok(None) <==> Key(end.value.m) < Key(s))
      && (r.Ok? && r.value.Some? ==> r.value.value == ("DTEND", When(end.value.m, false)))
    ensures !(end.Some? && end.value.AtMoment?) ==>
      (r.Ok? && r.value.Some? <==> dur.Some? && dur.value % DayUs == 0)
      && (r.Ok? && r.value.Some? ==> r.value.value == ("DURATION", Span(dur.value)))
  {
    match end
    case Some(AtMoment(e)) =>
      if e.TimeM? then Err(TypeError)
      else if Key(e) >= Key(s) then Ok(Some(("DTEND", When(e, false)))) else Ok(None)
    case _ =>
      if dur.Some? && dur.value % DayUs == 0 then Ok(Some(("DURATION", Span(dur.value)))) else Ok(None)
  }

  /**
   * `_event_add_end_dur_from_info`: the one property, DTEND or DURATION,
   * to add to a new event, if any. A timed event takes an end datetime
   * after its start, an end time of day (see `EndAfterTime`), or, with no
   * end, a positive duration. A day event takes an end date not before its
   * start, or else a duration of whole days. A day event given an end
   * datetime fails, as comparing a datetime with a date does.
   */
  function EndDurField(start: Option<Moment>, end: Option<EndMark>, dur: Option<int>)
    : (r: Result<Option<(string, Value)>, EndError>)
    requires start.Some? ==> ValidM(start.value)
    requires end.Some? ==> EndOk(end.value)
  {
    match start
    case None => Ok(None)
    case Some(s) => if s.TimeM? then Ok(TimedField(s, end, dur)) else DayField(s, end, dur)
  }

  /** Whatever `EndDurField` adds is consistent with the start: an end never before it, a duration that fits it. */
  lemma EndDurFieldSound(start: Option<Moment>, end: Option<EndMark>, dur: Option<int>)
    requires start.Some? ==> ValidM(start.value)
    requires end.Some? ==> EndOk(end.value)
    ensures var r := EndDurField(start, end, dur);
      (r.Err? <==> start.Some? && start.value.DateM? && end.Some? && end.value.AtMoment? && end.value.m.TimeM?)
      && (r.Ok? && r.value.Some? ==> start.Some?)
      && (r.Ok? && r.value.Some? && r.value.value.0 == "DTEND" ==>
            r.value.value.1.When? && ValidM(r.value.value.1.at)
            && r.value.value.1.at.TimeM? == start.value.TimeM?
            && (start.value.TimeM? ==> Key(start.value) < Key(r.value.value.1.at))
            && (start.value.DateM? ==> Key(start.value) <= Key(r.value.value.1.at)))
      && (r.Ok? && r.value.Some? && r.value.value.0 != "DTEND" ==>
            r.value.value == ("DURATION", Span(dur.value)) && dur.Some?
            && (start.value.TimeM? ==> end.None? && dur.value > 0)
            && (start.value.DateM? ==> dur.value % DayUs == 0))
  {
  }

  /** Adds the end or the duration to a new event. */
  method EventAddEndDur(ev: Entry, info: EntryInfo) returns (res: Result<(), EndError>)
    requires info.start.Some? ==> ValidM(info.start.value)
    requires info.endDt.Some? ==> EndOk(info.endDt.value)
    modifies ev
    ensures var f := EndDurField(info.start, info.endDt, info.duration);
      (f.Err? ==> res.Err? && ev.props == old(ev.props))
      && (f == Ok(None) ==> res.Ok? && ev.props == old(ev.props))
      && (f.Ok? && f.value.Some? ==> res.Ok? && ev.props == old(ev.props)[f.value.value.0 := f.value.value.1])
  {
    var f := EndDurField(info.start, info.endDt, info.duration);
    if f.Err? {
      return Err(f.error);
    }
    if f.value.Some? {
      ev.props := ev.props[f.value.value.0 := f.value.value.1];
    }
    res := Ok(());
  }

  // ---------------------------------------------------------------------
  // Entries that cross midnight

  /** The ordinal of the last day an entry covers, given its exclusive end. */
  function LastDay(end: Moment): int
    requires ValidM(end)
  {
    if end.DateM? || end.us == 0 then Ordinal(end.date) - 1 else Ordinal(end.date)
  }

  /**
   * `_is_xover_entry`: a single event crosses from its start day into the
   * next exactly when its end (from DTEND or DTSTART + DURATION) lies after
   * the midnight that ends its start day.
   */
  function IsXoverEntry(props: map<string, Value>): (r: bool)
    requires HasStart(props)
    ensures var se := StartEndDtsEvent(props);
      r <==> se.1.Some? && Key(se.1.value) > (Ordinal(se.0.date) + 1) * DayUs
  {
    var se := StartEndDtsEvent(props);
    if se.1.None? then false
    else
      LastDayAfter(se.0, se.1.value);
      Ordinal(se.0.date) < LastDay(se.1.value)
  }

  lemma LastDayAfter(st: Moment, end: Moment)
    requires ValidM(st) && ValidM(end)
    ensures Ordinal(st.date) < LastDay(end) <==> Key(end) > (Ordinal(st.date) + 1) * DayUs
  {
    var o := Ordinal(st.date);
    var e := Ordinal(end.date);
    if end.DateM? || end.us == 0 {
      assert Key(end) == e * DayUs;
      assert o < e - 1 <==> (o + 1) * DayUs < e * DayUs;
    } else {
      assert Key(end) == e * DayUs + end.us;
      if o < e {
        assert (o + 1) * DayUs <= e * DayUs;
      } else {
        assert e * DayUs <= o * DayUs;
      }
    }
  }

  // ---------------------------------------------------------------------
  // Splicing repeats into a sorted occurrence list

  /** An occurrence: an entry and the moment at which it occurs. */
  type Occurrence = (Entry, Moment)

  predicate OccsValid(t: seq<Occurrence>) {
    forall a :: 0 <= a < |t| ==> ValidM(t[a].1)
  }

  predicate MomentsValid(r: seq<Moment>) {
    forall a :: 0 <= a < |r| ==> ValidM(r[a])
  }

  predicate SortedOccs(t: seq<Occurrence>) {
    OccsValid(t) && forall a, b :: 0 <= a < b < |t| ==> Key(t[a].1) <= Key(t[b].1)
  }

  predicate SortedMoments(r: seq<Moment>) {
    MomentsValid(r) && forall a, b :: 0 <= a < b < |r| ==> Key(r[a]) <= Key(r[b])
  }

  /** The repeats of one event, as occurrences. */
  function Pairs(ev: Entry, r: seq<Moment>): (p: seq<Occurrence>)
    ensures |p| == |r| && forall a :: 0 <= a < |r| ==> p[a] == (ev, r[a])
  {
    seq(|r|, a requires 0 <= a < |r| => (ev, r[a]))
  }

  /**
   * The list `merge_repeating_entries_sort` builds: each repeat goes in
   * front of the first remaining occurrence that is strictly later, and the
   * repeats left over go at the end.
   */
  function Merge(t: seq<Occurrence>, ev: Entry, r: seq<Moment>): seq<Occurrence>
    requires OccsValid(t) && MomentsValid(r)
    decreases |t| + |r|
  {
    if |r| == 0 then t
    else if |t| == 0 then Pairs(ev, r)
    else if Key(r[0]) < Key(t[0].1) then [(ev, r[0])] + Merge(t, ev, r[1..])
    else [t[0]] + Merge(t[1..], ev, r)
  }

  /** Which positions of `Merge(t, ev, r)` hold a repeat. */
  ghost function MergeMask(t: seq<Occurrence>, r: seq<Moment>): seq<bool>
    requires OccsValid(t) && MomentsValid(r)
    decreases |t| + |r|
  {
    if |r| == 0 then seq(|t|, a => false)
    else if |t| == 0 then seq(|r|, a => true)
    else if Key(r[0]) < Key(t[0].1) then [true] + MergeMask(t, r[1..])
    else [false] + MergeMask(t[1..], r)
  }

  /** The elements of s at the positions where the mask is b, in order. */
  ghost function Select<T>(s: seq<T>, mask: seq<bool>, b: bool): seq<T>
    requires |s| == |mask|
  {
    if |s| == 0 then [] else (if mask[0] == b then [s[0]] else []) + Select(s[1..], mask[1..], b)
  }

  lemma {:induction false} SelectConst<T>(s: seq<T>, b: bool)
    ensures Select(s, seq(|s|, a => b), b) == s
    ensures Select(s, seq(|s|, a => b), !b) == []
  {
    if |s| > 0 {
      assert seq(|s|, a => b)[1..] == seq(|s[1..]|, a => b);
      SelectConst(s[1..], b);
    }
  }

  lemma SelectCons<T>(x: T, s: seq<T>, c: bool, mask: seq<bool>, b: bool)
    requires |s| == |mask|
    ensures Select([x] + s, [c] + mask, b) == (if c == b then [x] else []) + Select(s, mask, b)
  {
    assert ([x] + s)[1..] == s && ([c] + mask)[1..] == mask;
  }

  /** One step of the merge when the first repeat is strictly earlier than the first occurrence. */
  lemma MergeTakesRepeat(t: seq<Occurrence>, ev: Entry, r: seq<Moment>)
    requires OccsValid(t) && MomentsValid(r) && |t| > 0 && |r| > 0 && Key(r[0]) < Key(t[0].1)
    ensures Merge(t, ev, r) == [(ev, r[0])] + Merge(t, ev, r[1..])
    ensures MergeMask(t, r) == [true] + MergeMask(t, r[1..])
  {
  }

  /** One step of the merge when the first occurrence is not later than the first repeat. */
  lemma MergeTakesOriginal(t: seq<Occurrence>, ev: Entry, r: seq<Moment>)
    requires OccsValid(t) && MomentsValid(r) && |t| > 0 && |r| > 0 && Key(t[0].1) <= Key(r[0])
    ensures Merge(t, ev, r) == [t[0]] + Merge(t[1..], ev, r)
    ensures MergeMask(t, r) == [false] + MergeMask(t[1..], r)
  {
  }

  /**
   * The merge is an interleaving: read at the positions the mask marks
   * false it is the original list, in order; at the positions marked true
   * it is the repeats, in order.
   */
  lemma {:induction false} MergeInterleaves(t: seq<Occurrence>, ev: Entry, r: seq<Moment>)
    requires OccsValid(t) && MomentsValid(r)
    ensures |MergeMask(t, r)| == |Merge(t, ev, r)| == |t| + |r|
    ensures Select(Merge(t, ev, r), MergeMask(t, r), false) == t
    ensures Select(Merge(t, ev, r), MergeMask(t, r), true) == Pairs(ev, r)
    decreases |t| + |r|
  {
    if |r| == 0 {
      SelectConst(t, false);
    } else if |t| == 0 {
      SelectConst(Pairs(ev, r), true);
    } else if Key(r[0]) < Key(t[0].1) {
      MergeTakesRepeat(t, ev, r);
      MergeInterleaves(t, ev, r[1..]);
      SelectCons((ev, r[0]), Merge(t, ev, r[1..]), true, MergeMask(t, r[1..]), false);
      SelectCons((ev, r[0]), Merge(t, ev, r[1..]), true, MergeMask(t, r[1..]), true);
      assert Pairs(ev, r) == [(ev, r[0])] + Pairs(ev, r[1..]);
    } else {
      MergeTakesOriginal(t, ev, r);
      MergeInterleaves(t[1..], ev, r);
      SelectCons(t[0], Merge(t[1..], ev, r), false, MergeMask(t[1..], r), false);
      SelectCons(t[0], Merge(t[1..], ev, r), false, MergeMask(t[1..], r), true);
      assert t == [t[0]] + t[1..];
    }
  }

  /** The merge gains exactly the repeats of ev and loses nothing. */
  lemma {:induction false} MergePermutation(t: seq<Occurrence>, ev: Entry, r: seq<Moment>)
    requires OccsValid(t) && MomentsValid(r)
    ensures multiset(Merge(t, ev, r)) == multiset(t) + multiset(Pairs(ev, r))
    decreases |t| + |r|
  {
    if |r| == 0 {
    } else if |t| == 0 {
    } else if Key(r[0]) < Key(t[0].1) {
      var rest := r[1..];
      assert MomentsValid(rest);
      MergePermutation(t, ev, rest);
      PermTakesRight(Merge(t, ev, r), Merge(t, ev, rest), t, Pairs(ev, r), Pairs(ev, rest), (ev, r[0]));
    } else {
      var rest := t[1..];
      assert OccsValid(rest);
      MergePermutation(rest, ev, r);
      PermTakesLeft(Merge(t, ev, r), Merge(rest, ev, r), t, rest, Pairs(ev, r), t[0]);
    }
  }

  /** A merge step that takes the head of the right-hand list keeps the permutation. */
  lemma PermTakesRight<T>(m: seq<T>, m1: seq<T>, t: seq<T>, p: seq<T>, p1: seq<T>, x: T)
    requires m == [x] + m1 && p == [x] + p1 && multiset(m1) == multiset(t) + multiset(p1)
    ensures multiset(m) == multiset(t) + multiset(p)
  {
    assert multiset(m) == multiset{x} + multiset(m1);
    assert multiset(p) == multiset{x} + multiset(p1);
  }

  /** A merge step that takes the head of the left-hand list keeps the permutation. */
  lemma PermTakesLeft<T>(m: seq<T>, m1: seq<T>, t: seq<T>, t1: seq<T>, p: seq<T>, x: T)
    requires m == [x] + m1 && t == [x] + t1 && multiset(m1) == multiset(t1) + multiset(p)
    ensures multiset(m) == multiset(t) + multiset(p)
  {
    assert multiset(m) == multiset{x} + multiset(m1);
    assert multiset(t) == multiset{x} + multiset(t1);
  }

  /** Every occurrence of the merge comes from the list or is a repeat of ev. */
  lemma MergeMembers(t: seq<Occurrence>, ev: Entry, r: seq<Moment>, o: Occurrence)
    requires OccsValid(t) && MomentsValid(r) && o in Merge(t, ev, r)
    ensures o in t || (o.0 == ev && o.1 in r)
  {
    MergePermutation(t, ev, r);
    assert o in multiset(Merge(t, ev, r));
    if o !in t {
      assert o in multiset(Pairs(ev, r));
      var a :| 0 <= a < |r| && Pairs(ev, r)[a] == o;
    }
  }

  /** Merging sorted repeats into a sorted list gives a sorted list. */
  lemma {:induction false} MergeSorted(t: seq<Occurrence>, ev: Entry, r: seq<Moment>)
    requires SortedOccs(t) && SortedMoments(r)
    ensures SortedOccs(Merge(t, ev, r))
    decreases |t| + |r|
  {
    var m := Merge(t, ev, r);
    if |r| == 0 {
    } else if |t| == 0 {
    } else if Key(r[0]) < Key(t[0].1) {
      var rest := Merge(t, ev, r[1..]);
      MergeSorted(t, ev, r[1..]);
      HeadBelow(t, ev, r[1..], Key(r[0]), rest);
    } else {
      var rest := Merge(t[1..], ev, r);
      MergeSorted(t[1..], ev, r);
      HeadBelow(t[1..], ev, r, Key(t[0].1), rest);
    }
  }

  /** A key below every key of both inputs is below every key of their merge, so it can head the merge. */
  lemma HeadBelow(t: seq<Occurrence>, ev: Entry, r: seq<Moment>, h: int, rest: seq<Occurrence>)
    requires OccsValid(t) && MomentsValid(r) && rest == Merge(t, ev, r) && SortedOccs(rest)
    requires forall a :: 0 <= a < |t| ==> h <= Key(t[a].1)
    requires forall a :: 0 <= a < |r| ==> h <= Key(r[a])
    ensures forall b :: 0 <= b < |rest| ==> h <= Key(rest[b].1)
  {
    forall b | 0 <= b < |rest|
      ensures h <= Key(rest[b].1)
    {
      MergeMembers(t, ev, r, rest[b]);
    }
  }

  /**
   * The state of the splice loop: the first i positions of the list are
   * final, they hold the first j repeats, and the rest of the list is the
   * unprocessed tail of the original.
   */
  ghost predicate SpliceState(target: seq<Occurrence>, ev: Entry, reps: seq<Moment>, out: seq<Occurrence>, i: int, j: int)
    requires OccsValid(target) && MomentsValid(reps)
  {
    0 <= j <= |reps| && j <= i <= |out| == |target| + j
    && out[i..] == target[i - j..]
    && Merge(target, ev, reps) == out[..i] + Merge(target[i - j..], ev, reps[j..])
  }

  lemma SpliceInsert(target: seq<Occurrence>, ev: Entry, reps: seq<Moment>, out: seq<Occurrence>, i: int, j: int)
    requires OccsValid(target) && MomentsValid(reps) && SpliceState(target, ev, reps, out, i, j)
    requires i < |out| && j < |reps| && ValidM(out[i].1) && Key(reps[j]) < Key(out[i].1)
    ensures SpliceState(target, ev, reps, out[..i] + [(ev, reps[j])] + out[i..], i + 1, j + 1)
  {
    var tail := target[i - j..];
    var rest := reps[j..];
    assert out[i] == tail[0] && rest[0] == reps[j] by {
      assert out[i..][0] == tail[0];
    }
    MergeTakesRepeat(tail, ev, rest);
    assert rest[1..] == reps[j + 1..];
    InsertStep(Merge(target, ev, reps), out, i, (ev, reps[j]), Merge(tail, ev, rest), Merge(tail, ev, rest[1..]));
  }

  /** Inserting x at position i of `out` makes `out[..i]` then x the first i + 1 positions, and shifts the rest by one. */
  lemma InsertStep<T>(whole: seq<T>, out: seq<T>, i: int, x: T, m: seq<T>, m1: seq<T>)
    requires 0 <= i <= |out| && whole == out[..i] + m && m == [x] + m1
    ensures var out' := out[..i] + [x] + out[i..]; whole == out'[..i + 1] + m1 && out'[i + 1..] == out[i..]
  {
    var out' := out[..i] + [x] + out[i..];
    assert out'[..i + 1] == out[..i] + [x];
    assert out'[i + 1..] == out[i..];
  }

  lemma SpliceSkip(target: seq<Occurrence>, ev: Entry, reps: seq<Moment>, out: seq<Occurrence>, i: int, j: int)
    requires OccsValid(target) && MomentsValid(reps) && SpliceState(target, ev, reps, out, i, j)
    requires i < |out| && j < |reps| && ValidM(out[i].1) && Key(out[i].1) <= Key(reps[j])
    ensures SpliceState(target, ev, reps, out, i + 1, j)
  {
    var tail := target[i - j..];
    var rest := reps[j..];
    assert OccsValid(tail) && MomentsValid(rest);
    assert out[i] == tail[0] && rest[0] == reps[j] by {
      assert out[i..][0] == tail[0];
    }
    MergeTakesOriginal(tail, ev, rest);
    SliceStep(out, target, i, i - j);
    ConsStep(Merge(target, ev, reps), out, i, Merge(tail, ev, rest), Merge(tail[1..], ev, rest));
    assert tail[1..] == target[i - j + 1..];
  }

  /** Moving one place along two slices that agree keeps them agreeing. */
  lemma SliceStep<T>(a: seq<T>, b: seq<T>, i: int, k: int)
    requires 0 <= i < |a| && 0 <= k < |b| && a[i..] == b[k..]
    ensures a[i + 1..] == b[k + 1..]
  {
    assert a[i + 1..] == a[i..][1..];
    assert b[k + 1..] == b[k..][1..];
  }

  /** A sequence that is a prefix of `out` followed by `out[i]` and more is `out[..i + 1]` and more. */
  lemma ConsStep<T>(whole: seq<T>, out: seq<T>, i: int, m: seq<T>, m1: seq<T>)
    requires 0 <= i < |out| && whole == out[..i] + m && m == [out[i]] + m1
    ensures whole == out[..i + 1] + m1
  {
    assert out[..i + 1] == out[..i] + [out[i]];
  }

  /** The loop ends with the whole merge once either the list or the repeats are used up. */
  lemma SpliceDone(target: seq<Occurrence>, ev: Entry, reps: seq<Moment>, out: seq<Occurrence>, i: int, j: int)
    requires OccsValid(target) && MomentsValid(reps) && SpliceState(target, ev, reps, out, i, j)
    requires i == |out| || j == |reps|
    ensures j < |reps| ==> Merge(target, ev, reps) == out + Pairs(ev, reps[j..])
    ensures j == |reps| ==> Merge(target, ev, reps) == out
  {
    if j < |reps| {
      assert out[..i] == out;
    } else {
      assert out[..i] + out[i..] == out;
    }
  }

  /**
   * The splice loop of `merge_repeating_entries_sort`: i walks the growing
   * list, j the repeats, and a repeat is inserted at i when it is strictly
   * earlier than the occurrence there.
   */
  method MergeInto(target: seq<Occurrence>, ev: Entry, reps: seq<Moment>) returns (out: seq<Occurrence>)
    requires OccsValid(target) && MomentsValid(reps)
    ensures out == Merge(target, ev, reps)
  {
    out := target;
    var i, j := 0, 0;
    var endI, endJ := |out|, |reps|;
    while i < endI && j < endJ
      invariant SpliceState(target, ev, reps, out, i, j)
      invariant endI == |out| && endJ == |reps|
      invariant OccsValid(out[i..])
      decreases endI - i + endJ - j
    {
      assert ValidM(out[i..][0].1);
      if DtLt(reps[j], out[i].1) {
        SpliceInsert(target, ev, reps, out, i, j);
        out := out[..i] + [(ev, reps[j])] + out[i..];
        j := j + 1;
        endI := endI + 1;
      } else {
        SpliceSkip(target, ev, reps, out, i, j);
      }
      i := i + 1;
    }
    SpliceDone(target, ev, reps, out, i, j);
    if j < endJ {
      out := out + Pairs(ev, reps[j..]);
    }
  }

  /**
   * The repeats `merge_repeating_entries_sort` splices in for one event:
   * those `repeats_in_range` gives, the fallback repeats when it falls back,
   * and for a rule it rejects only the DTSTART, when that is in the range.
   */
  ghost predicate RepsFor(props: map<string, Value>, start: Date, stop: Date, fallback: seq<Moment>, reps: seq<Moment>)
    requires HasStart(props) && "RRULE" in props && Valid(start) && Valid(stop)
  {
    match Prepare(props, start, stop)
    case Err(Impossible) => reps == []
    case Err(Unsupported) => reps == fallback
    case Err(Unbounded) => reps == []
    case Err(ValueError) =>
      var st := StartOf(props);
      reps == (if Key(st) < Key(DateM(start)) || Key(DateM(stop)) <= Key(st) then [] else [st])
    case Ok(None) => reps == []
    case Ok(Some(s)) =>
      Increasing(reps) && forall m :: m in reps <==> Kept(s, RangeStart(s.timed, start), m)
  }

  /**
   * The repeats `merge_repeating_entries_sort` splices in: those in range,
   * or, when the rule cannot be expanded, DTSTART alone if it is in range.
   */
  method RepeatsOrStart(props: map<string, Value>, start: Date, stop: Date, fallback: seq<Moment>)
    returns (reps: seq<Moment>)
    requires HasStart(props) && "RRULE" in props && Valid(start) && Valid(stop) && SortedMoments(fallback)
    ensures RepsFor(props, start, stop, fallback, reps) && SortedMoments(reps)
  {
    var res := RepeatsInRange(props, start, stop, fallback);
    if res.Err? {
      var st := StartOf(props);
      if DtLt(st, DateM(start)) || DtLte(DateM(stop), st) {
        reps := [];
      } else {
        reps := [st];
      }
    } else {
      reps := res.value;
    }
  }

  /** `merge_repeating_entries_sort`, returning the spliced list. */
  method MergeRepeatingEntriesSort(target: seq<Occurrence>, ev: Entry, start: Date, stop: Date, fallback: seq<Moment>)
    returns (out: seq<Occurrence>)
    requires HasStart(ev.props) && "RRULE" in ev.props && Valid(start) && Valid(stop)
    requires OccsValid(target) && SortedMoments(fallback)
    ensures exists reps ::
              RepsFor(ev.props, start, stop, fallback, reps) && SortedMoments(reps) && out == Merge(target, ev, reps)
              && multiset(out) == multiset(target) + multiset(Pairs(ev, reps))
    ensures OccsValid(out) && multiset(target) <= multiset(out)
    ensures forall o :: o in out ==> o in target || o.0 == ev
    ensures SortedOccs(target) ==> SortedOccs(out)
  {
    var reps := RepeatsOrStart(ev.props, start, stop, fallback);
    out := MergeInto(target, ev, reps);
    MergePermutation(target, ev, reps);
    forall o | o in out
      ensures o in target || o.0 == ev
    {
      MergeMembers(target, ev, reps, o);
    }
    assert OccsValid(out) by {
      forall a | 0 <= a < |out|
        ensures ValidM(out[a].1)
      {
        MergeMembers(target, ev, reps, out[a]);
      }
    }
    if SortedOccs(target) {
      MergeSorted(target, ev, reps);
    }
  }

  // ---------------------------------------------------------------------
  // Single events in a range

  /** The occurrences of a list whose moment lies in [start, stop), in list order. */
  function InRange(l: seq<Occurrence>, lo: int, hi: int): (r: seq<Occurrence>)
    requires OccsValid(l)
    ensures |r| <= |l|
  {
    if |l| == 0 then []
    else (if lo <= Key(l[0].1) < hi then [l[0]] else []) + InRange(l[1..], lo, hi)
  }

  /** An occurrence is in the range list exactly when it is in the list and its moment is in range. */
  lemma {:induction false} InRangeMembers(l: seq<Occurrence>, lo: int, hi: int, o: Occurrence)
    requires OccsValid(l)
    ensures o in InRange(l, lo, hi) <==> o in l && lo <= Key(o.1) < hi
  {
    if |l| > 0 {
      InRangeMembers(l[1..], lo, hi, o);
      assert o in l <==> o == l[0] || o in l[1..];
    }
  }

  lemma {:induction false} InRangeAppend(x: seq<Occurrence>, y: seq<Occurrence>, lo: int, hi: int)
    requires OccsValid(x) && OccsValid(y)
    ensures InRange(x + y, lo, hi) == InRange(x, lo, hi) + InRange(y, lo, hi)
  {
    if |x| > 0 {
      var x1 := x[1..];
      assert OccsValid(x1);
      assert (x + y)[0] == x[0] && (x + y)[1..] == x1 + y;
      InRangeAppend(x1, y, lo, hi);
      var h := if lo <= Key(x[0].1) < hi then [x[0]] else [];
      assert InRange(x + y, lo, hi) == h + InRange(x1 + y, lo, hi);
      assert InRange(x, lo, hi) == h + InRange(x1, lo, hi);
    } else {
      assert x + y == y;
    }
  }

  lemma {:induction false} InRangeAll(x: seq<Occurrence>, lo: int, hi: int)
    requires OccsValid(x) && forall a :: 0 <= a < |x| ==> lo <= Key(x[a].1) < hi
    ensures InRange(x, lo, hi) == x
  {
    if |x| > 0 {
      InRangeAll(x[1..], lo, hi);
    }
  }

  lemma {:induction false} InRangeNone(x: seq<Occurrence>, lo: int, hi: int)
    requires OccsValid(x) && forall a :: 0 <= a < |x| ==> !(lo <= Key(x[a].1) < hi)
    ensures InRange(x, lo, hi) == []
  {
    if |x| > 0 {
      InRangeNone(x[1..], lo, hi);
    }
  }

  /** In a list sorted by moment, the occurrences in range are the slice between the two bounds. */
  lemma SortedSlice(l: seq<Occurrence>, a: int, b: int, lo: int, hi: int)
    requires OccsValid(l) && 0 <= a <= b <= |l|
    requires forall k :: 0 <= k < a ==> Key(l[k].1) < lo
    requires forall k :: a <= k < b ==> lo <= Key(l[k].1) < hi
    requires forall k :: b <= k < |l| ==> hi <= Key(l[k].1)
    ensures InRange(l, lo, hi) == l[a..b]
  {
    assert l == l[..a] + l[a..b] + l[b..];
    InRangeAppend(l[..a] + l[a..b], l[b..], lo, hi);
    InRangeAppend(l[..a], l[a..b], lo, hi);
    InRangeNone(l[..a], lo, hi);
    InRangeAll(l[a..b], lo, hi);
    InRangeNone(l[b..], lo, hi);
  }

  /**
   * The single-event part of `occurrence_list`: bisect for the first event
   * starting at or after `start`, then take events while they start before
   * `stop`.
   */
  method SingleOccurrences(norep: seq<Occurrence>, start: Date, stop: Date) returns (ret: seq<Occurrence>)
    requires SortedOccs(norep) && Valid(start) && Valid(stop)
    ensures ret == InRange(norep, Key(DateM(start)), Key(DateM(stop)))
    ensures SortedOccs(ret)
  {
    var first := BisectStart(norep, start);
    var ii;
    ret, ii := TakeBefore(norep, first, stop);
    SortedSlice(norep, first, ii, Key(DateM(start)), Key(DateM(stop)));
  }

  /** The bisection: the index of the first event that does not start before `start`. */
  method BisectStart(norep: seq<Occurrence>, start: Date) returns (ii: int)
    requires SortedOccs(norep) && Valid(start)
    ensures 0 <= ii <= |norep|
    ensures forall k :: 0 <= k < ii ==> Key(norep[k].1) < Key(DateM(start))
    ensures forall k :: ii <= k < |norep| ==> Key(DateM(start)) <= Key(norep[k].1)
  {
    ghost var lo := Key(DateM(start));
    ii := 0;
    var llen := |norep|;
    var top := llen;
    while ii < top
      invariant 0 <= ii <= top <= llen
      invariant forall k :: 0 <= k < ii ==> Key(norep[k].1) < lo
      invariant forall k :: top <= k < llen ==> lo <= Key(norep[k].1)
    {
      var mid := (ii + top) / 2;
      if DtLt(norep[mid].1, DateM(start)) {
        ii := mid + 1;
      } else {
        top := mid;
      }
    }
  }

  /** The taking loop: events from `first` on while they start before `stop`. */
  method TakeBefore(norep: seq<Occurrence>, first: int, stop: Date) returns (ret: seq<Occurrence>, ii: int)
    requires SortedOccs(norep) && Valid(stop) && 0 <= first <= |norep|
    ensures first <= ii <= |norep| && ret == norep[first..ii]
    ensures forall k :: first <= k < ii ==> Key(norep[k].1) < Key(DateM(stop))
    ensures forall k :: ii <= k < |norep| ==> Key(DateM(stop)) <= Key(norep[k].1)
  {
    ghost var hi := Key(DateM(stop));
    ii := first;
    var llen := |norep|;
    ret := [];
    while ii < llen
      invariant first <= ii <= llen
      invariant ret == norep[first..ii]
      invariant forall k :: first <= k < ii ==> Key(norep[k].1) < hi
    {
      var e := norep[ii];
      if DtLte(DateM(stop), e.1) {
        break;
      }
      ret := ret + [e];
      ii := ii + 1;
    }
    forall k | ii <= k < llen
      ensures hi <= Key(norep[k].1)
    {
      assert ii < llen && hi <= Key(norep[ii].1);
    }
  }

  /** Each `R[n]` is what `merge_repeating_entries_sort` splices in for event n. */
  ghost predicate RepsForAll(reps: seq<Entry>, start: Date, stop: Date, fallbacks: seq<seq<Moment>>, R: seq<seq<Moment>>)
    reads reps
    requires Valid(start) && Valid(stop)
    decreases |R|
  {
    |R| <= |reps| && |R| <= |fallbacks|
    && (|R| > 0 ==>
          var n := |R| - 1;
          RepsForAll(reps, start, stop, fallbacks, R[..n])
          && HasStart(reps[n].props) && "RRULE" in reps[n].props
          && RepsFor(reps[n].props, start, stop, fallbacks[n], R[n]))
  }

  /** The repeats of every event, event by event, as occurrences. */
  function AllPairs(reps: seq<Entry>, R: seq<seq<Moment>>): (p: seq<Occurrence>)
    requires |R| == |reps|
  {
    if |reps| == 0 then []
    else AllPairs(reps[..|reps| - 1], R[..|R| - 1]) + Pairs(reps[|reps| - 1], R[|R| - 1])
  }

  /** Every repeat of every event is among the occurrences `AllPairs` lists. */
  lemma {:induction false} AllPairsMembers(reps: seq<Entry>, R: seq<seq<Moment>>, n: int, m: Moment)
    requires |R| == |reps| && 0 <= n < |reps| && m in R[n]
    ensures (reps[n], m) in AllPairs(reps, R)
  {
    var k := |reps| - 1;
    if n == k {
      var a :| 0 <= a < |R[k]| && R[k][a] == m;
      assert Pairs(reps[k], R[k])[a] == (reps[n], m);
    } else {
      AllPairsMembers(reps[..k], R[..k], n, m);
    }
  }

  /** The loop of `occurrence_list` over the repeating events, splicing each one's repeats in turn. */
  method MergeAllRepeating(base: seq<Occurrence>, reps: seq<Entry>, start: Date, stop: Date, fallbacks: seq<seq<Moment>>)
    returns (ret: seq<Occurrence>)
    requires Valid(start) && Valid(stop) && SortedOccs(base) && |fallbacks| == |reps|
    requires forall n :: 0 <= n < |reps| ==> HasStart(reps[n].props) && "RRULE" in reps[n].props
    requires forall n :: 0 <= n < |fallbacks| ==> SortedMoments(fallbacks[n])
    ensures SortedOccs(ret) && multiset(base) <= multiset(ret)
    ensures forall o :: o in ret ==> o in base || o.0 in reps
    ensures exists R :: |R| == |reps| && RepsForAll(reps, start, stop, fallbacks, R)
                        && multiset(ret) == multiset(base) + multiset(AllPairs(reps, R))
  {
    ret := base;
    ghost var R: seq<seq<Moment>> := [];
    var n := 0;
    assert Spliced(base, ret, reps, start, stop, fallbacks, R, 0);
    while n < |reps|
      invariant 0 <= n <= |reps|
      invariant Spliced(base, ret, reps, start, stop, fallbacks, R, n)
    {
      var out := MergeRepeatingEntriesSort(ret, reps[n], start, stop, fallbacks[n]);
      ghost var r :| RepsFor(reps[n].props, start, stop, fallbacks[n], r)
                     && multiset(out) == multiset(ret) + multiset(Pairs(reps[n], r));
      SplicedStep(base, ret, out, reps, start, stop, fallbacks, R, r, n);
      ret := out;
      R := R + [r];
      n := n + 1;
    }
    SplicedAll(base, ret, reps, start, stop, fallbacks, R);
  }

  /** The invariant of `MergeAllRepeating` after the first n events. */
  ghost predicate Spliced(base: seq<Occurrence>, ret: seq<Occurrence>, reps: seq<Entry>, start: Date, stop: Date,
                          fallbacks: seq<seq<Moment>>, R: seq<seq<Moment>>, n: int)
    reads reps
    requires Valid(start) && Valid(stop) && 0 <= n <= |reps| && n <= |fallbacks|
  {
    SortedOccs(ret) && multiset(base) <= multiset(ret)
    && (forall o :: o in ret ==> o in base || o.0 in reps[..n])
    && |R| == n && RepsForAll(reps, start, stop, fallbacks, R)
    && multiset(ret) == multiset(base) + multiset(AllPairs(reps[..n], R))
  }

  /** Splicing in event n's repeats keeps the invariant, one event further on. */
  lemma SplicedStep(base: seq<Occurrence>, ret: seq<Occurrence>, out: seq<Occurrence>, reps: seq<Entry>,
                    start: Date, stop: Date, fallbacks: seq<seq<Moment>>, R: seq<seq<Moment>>, r: seq<Moment>, n: int)
    requires Valid(start) && Valid(stop) && 0 <= n < |reps| && n < |fallbacks|
    requires Spliced(base, ret, reps, start, stop, fallbacks, R, n)
    requires HasStart(reps[n].props) && "RRULE" in reps[n].props
    requires RepsFor(reps[n].props, start, stop, fallbacks[n], r)
    requires SortedOccs(out) && multiset(out) == multiset(ret) + multiset(Pairs(reps[n], r))
    requires forall o :: o in out ==> o in ret || o.0 == reps[n]
    ensures Spliced(base, out, reps, start, stop, fallbacks, R + [r], n + 1)
  {
    FromEarlierOrNth(base, ret, out, reps, n);
    RepsForAllStep(reps, R, r, n, start, stop, fallbacks);
    AllPairsSnoc(reps, R, r, n);
  }

  /** Event n's repeats extend the ghost list of repeats by one. */
  lemma RepsForAllStep(reps: seq<Entry>, R: seq<seq<Moment>>, r: seq<Moment>, n: int, start: Date, stop: Date,
                       fallbacks: seq<seq<Moment>>)
    requires Valid(start) && Valid(stop) && 0 <= n < |reps| && n < |fallbacks| && |R| == n
    requires RepsForAll(reps, start, stop, fallbacks, R)
    requires HasStart(reps[n].props) && "RRULE" in reps[n].props
    requires RepsFor(reps[n].props, start, stop, fallbacks[n], r)
    ensures RepsForAll(reps, start, stop, fallbacks, R + [r])
  {
    assert (R + [r])[..n] == R && (R + [r])[n] == r;
  }

  /** `AllPairs` of one more event is the old list followed by that event's pairs. */
  lemma AllPairsSnoc(reps: seq<Entry>, R: seq<seq<Moment>>, r: seq<Moment>, n: int)
    requires 0 <= n < |reps| && |R| == n
    ensures AllPairs(reps[..n + 1], R + [r]) == AllPairs(reps[..n], R) + Pairs(reps[n], r)
  {
    assert reps[..n + 1][..n] == reps[..n];
    assert (R + [r])[..n] == R;
  }

  /** Once every event is spliced in, the invariant is the contract of `MergeAllRepeating`. */
  lemma SplicedAll(base: seq<Occurrence>, ret: seq<Occurrence>, reps: seq<Entry>, start: Date, stop: Date,
                   fallbacks: seq<seq<Moment>>, R: seq<seq<Moment>>)
    requires Valid(start) && Valid(stop) && |reps| == |fallbacks|
    requires Spliced(base, ret, reps, start, stop, fallbacks, R, |reps|)
    ensures SortedOccs(ret) && multiset(base) <= multiset(ret)
    ensures forall o :: o in ret ==> o in base || o.0 in reps
    ensures |R| == |reps| && RepsForAll(reps, start, stop, fallbacks, R)
    ensures multiset(ret) == multiset(base) + multiset(AllPairs(reps, R))
  {
    assert reps[..|reps|] == reps;
  }

  /** After splicing in event n, every occurrence comes from the base list or from events 0..n. */
  lemma FromEarlierOrNth(base: seq<Occurrence>, ret: seq<Occurrence>, out: seq<Occurrence>, reps: seq<Entry>, n: int)
    requires 0 <= n < |reps|
    requires forall o :: o in ret ==> o in base || o.0 in reps[..n]
    requires forall o :: o in out ==> o in ret || o.0 == reps[n]
    ensures forall o :: o in out ==> o in base || o.0 in reps[..n + 1]
  {
    assert reps[..n + 1] == reps[..n] + [reps[n]];
  }

  /**
   * The calendar's cached lists: the connector flags, the single events
   * sorted by start (each paired with its DTSTART), and the repeating events.
   */
  class Calendar {
    var connectorFlags: seq<bv8>
    var norepSorted: seq<Occurrence>
    var repList: seq<Entry>

    constructor (flags: seq<bv8>, norep: seq<Occurrence>, reps: seq<Entry>)
      ensures connectorFlags == flags && norepSorted == norep && repList == reps
    {
      connectorFlags := flags;
      norepSorted := norep;
      repList := reps;
    }

    /** `calendar_readonly`: the flags of the connector storing the entry. */
    function CalendarReadonly(en: Entry): (r: bool)
      reads this
      requires 0 <= en.calIdx < |connectorFlags|
      ensures r <==> connectorFlags[en.calIdx] % 2 == 1
    {
      IsReadonly(connectorFlags[en.calIdx])
    }

    /**
     * `set_toggle_status_entry`: fails on a read-only calendar; otherwise
     * sets, replaces or toggles off the STATUS and stamps the entry with
     * `now`, unless there is no status and none is asked for.
     */
    method SetToggleStatus(en: Entry, stat: Option<string>, now: Moment) returns (res: Result<(), StatusError>)
      requires 0 <= en.calIdx < |connectorFlags|
      modifies en
      ensures var t := ToggleStatus(old(en.props), en.kind, CalendarReadonly(en), stat, now);
        (t.Err? ==> res == Err(t.error) && en.props == old(en.props))
        && (t == Ok(None) ==> res.Ok? && en.props == old(en.props))
        && (t.Ok? && t.value.Some? ==> res.Ok? && en.props == t.value.value)
    {
      if CalendarReadonly(en) {
        return Err(ReadOnlyCalendar);
      }
      var s := stat;
      if "STATUS" in en.props {
        if stat.Some? && en.props["STATUS"] == Text(stat.value) {
          s := None;
        }
        en.props := en.props - {"STATUS"};
      } else if stat.None? {
        return Ok(());
      }
      en.props := AddStatus(en.props, en.kind, s);
      UpdateEntryField(en, "DTSTAMP", Some(When(now, false)));
      UpdateEntryField(en, "LAST-MODIFIED", Some(When(now, false)));
      res := Ok(());
    }

    /**
     * `occurrence_list`: the single events starting in [start, stop), then
     * the repeats of each repeating event spliced in. `fallbacks[n]` stands
     * for the repeats of `repList[n]` that the fallback library would give.
     */
    method OccurrenceList(start: Date, stop: Date, includeSingle: bool, includeRepeated: bool,
                          fallbacks: seq<seq<Moment>>)
      returns (ret: seq<Occurrence>)
      requires Valid(start) && Valid(stop) && SortedOccs(norepSorted)
      requires |fallbacks| == |repList|
      requires forall n :: 0 <= n < |repList| ==> HasStart(repList[n].props) && "RRULE" in repList[n].props
      requires forall n :: 0 <= n < |fallbacks| ==> SortedMoments(fallbacks[n])
      ensures SortedOccs(ret)
      ensures var single := InRange(norepSorted, Key(DateM(start)), Key(DateM(stop)));
        (includeSingle ==> multiset(single) <= multiset(ret))
        && (!includeRepeated ==> ret == (if includeSingle then single else []))
        && forall o :: o in ret ==> (includeSingle && o in single) || (includeRepeated && o.0 in repList)
      ensures var single := InRange(norepSorted, Key(DateM(start)), Key(DateM(stop)));
        includeRepeated ==>
          exists R :: |R| == |repList| && RepsForAll(repList, start, stop, fallbacks, R)
                      && multiset(ret) == multiset(if includeSingle then single else []) + multiset(AllPairs(repList, R))
    {
      ghost var single := InRange(norepSorted, Key(DateM(start)), Key(DateM(stop)));
      ret := [];
      if includeSingle {
        ret := SingleOccurrences(norepSorted, start, stop);
      }
      if includeRepeated {
        ret := MergeAllRepeating(ret, repList, start, stop, fallbacks);
      }
    }
  }
}
