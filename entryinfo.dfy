/**
 * The entry details the event and to-do dialogs collect and hand to the
 * calendar: start, end or duration, repeat settings, categories, priority
 * and alarms. The setters keep two invariants: an end and a duration are
 * never both set, and a repeat never has both a count and an until date.
 */
module Info {
  import opened Wrappers
  import opened Dates

  /** An end as the dialogs give it: a date or datetime, or a bare time of day in microseconds since midnight. */
  datatype EndMark = AtMoment(m: Moment) | AtTime(us: int)

  datatype EntryType = TypeEvent | TypeTodo

  /** An alarm; `tdelta` is its offset from the entry in microseconds, negative when before it. */
  datatype AlarmInfo = AlarmInfo(tdelta: int, action: string, desc: Option<string>,
                                 summary: Option<string>, attendee: Option<string>)

  /** The stored priority: kept only when it is one of 1..9 (0 and None mean unset). */
  function PriorityOf(pri: Option<int>): (r: Option<int>)
    ensures r.Some? <==> pri.Some? && 1 <= pri.value <= 9
    ensures r.Some? ==> r == pri
  {
    match pri
    case None => None
    case Some(p) => if p != 0 && 0 < p <= 9 then pri else None
  }

  /** The stored categories: the set of the names given, or None for a missing or empty list. */
  function CategorySet(catlist: Option<seq<string>>): (r: Option<set<string>>)
    ensures r.None? <==> catlist.None? || |catlist.value| == 0
    ensures r.Some? ==> (forall c :: c in r.value <==> c in catlist.value) && |r.value| <= |catlist.value|
  {
    if catlist.Some? && |catlist.value| > 0 then
      ElementsBound(catlist.value);
      Some(set c | c in catlist.value)
    else None
  }

  /** A list never has more distinct names than elements. */
  lemma {:induction false} ElementsBound(s: seq<string>)
    ensures |set c | c in s| <= |s|
  {
    if |s| > 0 {
      ElementsBound(s[1..]);
      assert (set c | c in s) == {s[0]} + (set c | c in s[1..]);
    }
  }

  /** Every field of an `EntryInfo` at one moment, so that a setter can state its whole new state. */
  datatype Fields = Fields(
    entryType: EntryType, desc: string, start: Option<Moment>, endDt: Option<EndMark>,
    duration: Option<int>, status: Option<string>, location: Option<string>, alarms: seq<AlarmInfo>,
    repType: Option<string>, repInter: int, repCount: Option<int>, repUntil: Option<Moment>,
    repByday: Option<string>, repBymonth: Option<string>, repBymonthday: Option<string>,
    repExceptions: Option<seq<Moment>>, categories: Option<set<string>>, priority: Option<int>,
    duedate: Option<Moment>)

  class EntryInfo {
    var entryType: EntryType
    var desc: string
    /** A date or a datetime; None when the dialog gave no start. */
    var start: Option<Moment>
    var endDt: Option<EndMark>
    /** A duration in microseconds. */
    var duration: Option<int>
    var status: Option<string>
    var location: Option<string>
    var alarms: seq<AlarmInfo>
    var repType: Option<string>
    var repInter: int
    var repCount: Option<int>
    var repUntil: Option<Moment>
    var repByday: Option<string>
    var repBymonth: Option<string>
    var repBymonthday: Option<string>
    var repExceptions: Option<seq<Moment>>
    var categories: Option<set<string>>
    var priority: Option<int>
    var duedate: Option<Moment>

    function Snapshot(): Fields
      reads this
    {
      Fields(entryType, desc, start, endDt, duration, status, location, alarms,
             repType, repInter, repCount, repUntil, repByday, repBymonth, repBymonthday,
             repExceptions, categories, priority, duedate)
    }

    /** The invariants the setters assert. */
    ghost predicate Valid()
      reads this
    {
      (endDt.None? || duration.None?) && (repUntil.None? || repCount.None?)
    }

    /**
     * A missing description becomes the empty string, an empty location
     * becomes None, and the entry starts with no alarms and no repeat.
     */
    constructor (entryType: EntryType, desc: Option<string>, start: Option<Moment>,
                 endDt: Option<EndMark>, duration: Option<int>, status: Option<string>,
                 location: Option<string>)
      requires endDt.None? || duration.None?
      ensures Valid()
      ensures this.entryType == entryType && this.start == start && this.status == status
      ensures this.desc == (if desc.None? then "" else desc.value)
      ensures this.location == (if location.Some? && location.value != "" then location else None)
      ensures this.endDt == endDt && this.duration == duration
      ensures alarms == [] && repType.None? && repInter == 1 && repCount.None? && repUntil.None?
      ensures categories.None? && priority.None? && duedate.None?
      ensures repByday.None? && repBymonth.None? && repBymonthday.None? && repExceptions.None?
    {
      this.entryType := entryType;
      this.desc := if desc.None? then "" else desc.value;
      this.start := start;
      this.endDt := endDt;
      this.duration := duration;
      this.status := status;
      this.location := if location.Some? && location.value != "" then location else None;
      this.alarms := [];
      this.repType := None;
      this.repInter := 1;
      this.repCount := None;
      this.repUntil := None;
      this.repByday := None;
      this.repBymonth := None;
      this.repBymonthday := None;
      this.repExceptions := None;
      this.categories := None;
      this.priority := None;
      this.duedate := None;
    }

    /** The start without its time of day; a date start is returned as it is. */
    function StartDate(): (r: Option<Moment>)
      reads this
      ensures r.Some? <==> start.Some?
      ensures r.Some? ==> r.value.DateM? && r.value.date == start.value.date
      ensures start.Some? && start.value.DateM? ==> r == start
    {
      match start
      case None => None
      case Some(m) => Some(DateM(m.date))
    }

    /** The start's time of day, present only when the start is a datetime. */
    function StartTime(): (r: Option<int>)
      reads this
      ensures r.Some? <==> start.Some? && start.value.TimeM?
      ensures r.Some? ==> r.value == start.value.us
    {
      if start.Some? && start.value.TimeM? then Some(start.value.us) else None
    }

    method SetEndDt(endDt: Option<EndMark>)
      requires Valid() && (endDt.None? || duration.None?)
      modifies this
      ensures Valid() && Snapshot() == old(Snapshot()).(endDt := endDt)
    {
      this.endDt := endDt;
    }

    method SetDuration(dur: Option<int>)
      requires Valid() && (dur.None? || endDt.None?)
      modifies this
      ensures Valid() && Snapshot() == old(Snapshot()).(duration := dur)
    {
      duration := dur;
    }

    /**
     * Repeat settings; a missing interval means every period. The frame
     * names the eight repeat fields, so every other field keeps its value.
     */
    method SetRepeatInfo(reptype: string, interval: Option<int>, count: Option<int>, until: Option<Moment>,
                         byday: Option<string>, bymonth: Option<string>, bymonthday: Option<string>,
                         exceptList: Option<seq<Moment>>)
      requires Valid() && (until.None? || count.None?)
      modifies this`repType, this`repInter, this`repCount, this`repUntil
      modifies this`repByday, this`repBymonth, this`repBymonthday, this`repExceptions
      ensures Valid()
      ensures repType == Some(reptype) && repInter == (if interval.None? then 1 else interval.value)
      ensures repCount == count && repUntil == until && repExceptions == exceptList
      ensures repByday == byday && repBymonth == bymonth && repBymonthday == bymonthday
    {
      repType := Some(reptype);
      repInter := if interval.None? then 1 else interval.value;
      repCount := count;
      repUntil := until;
      repByday := byday;
      repBymonth := bymonth;
      repBymonthday := bymonthday;
      repExceptions := exceptList;
    }

    method SetCategories(catlist: Option<seq<string>>)
      requires Valid()
      modifies this
      ensures Valid() && Snapshot() == old(Snapshot()).(categories := CategorySet(catlist))
    {
      categories := CategorySet(catlist);
    }

    method SetPriority(pri: Option<int>)
      requires Valid()
      modifies this
      ensures Valid() && Snapshot() == old(Snapshot()).(priority := PriorityOf(pri))
    {
      priority := PriorityOf(pri);
    }

    method SetDuedate(dt: Option<Moment>)
      requires Valid()
      modifies this
      ensures Valid() && Snapshot() == old(Snapshot()).(duedate := dt)
    {
      duedate := dt;
    }

    /** Appends a copy of the alarm; the alarms already present stay as they were. */
    method AddAlarm(alarm: AlarmInfo)
      requires Valid()
      modifies this
      ensures Valid() && alarms == old(alarms) + [alarm]
      ensures |alarms| == |old(alarms)| + 1 && alarms[..|old(alarms)|] == old(alarms)
      ensures Snapshot() == old(Snapshot()).(alarms := old(alarms) + [alarm])
    {
      alarms := alarms + [alarm];
    }
  }
}
