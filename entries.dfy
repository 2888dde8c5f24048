/**
 * Calendar entries (VEVENT and VTODO components) as maps from property name
 * to a typed value, as the icalendar library exposes them, and the RRULE
 * value of section 3.3.10 of RFC 5545 reduced to the parts the agenda reads.
 */
module Entries {
  import opened Wrappers
  import opened Dates

  datatype Kind = Event | Todo

  /** RRULE FREQ values; any other name is kept as `OtherFreq`. */
  datatype Freq = Yearly | Monthly | Weekly | Daily | Hourly | Minutely | Secondly | OtherFreq(name: string)

  /**
   * An RRULE. A list part that is absent is the empty list. `otherParts`
   * records that one of BYYEARDAY, BYSETPOS, BYHOUR, BYMINUTE, BYSECOND or
   * BYWEEKNO is present: the agenda treats each of them alike.
   */
  datatype RRule = RRule(
    freq: Freq,
    interval: Option<int>,
    until: Option<Moment>,
    count: Option<int>,
    byday: seq<string>,
    bymonth: seq<int>,
    bymonthday: seq<int>,
    wkst: Option<string>,
    otherParts: bool)

  /** One element of a CATEGORIES value: a comma-separated string or a category list. */
  datatype CatItem = CatText(text: string) | CatGroup(cats: seq<string>)

  /** A property value. A single CATEGORIES or EXDATE value is a list of one. */
  datatype Value =
    | Text(s: string)
    | Num(n: int)
    | When(at: Moment, tzid: bool)
    | Span(us: int)
    | Recur(rule: RRule)
    | ExDates(lists: seq<seq<Moment>>)
    | Categories(items: seq<CatItem>)

  /** The property types the icalendar library gives each property the agenda reads. */
  predicate WellTyped(props: map<string, Value>) {
    IsWhen(props, "DTSTART") && IsWhen(props, "DTEND")
    && IsWhen(props, "DUE") && IsWhen(props, "COMPLETED")
    && ("DURATION" in props ==> props["DURATION"].Span?)
    && ("RRULE" in props ==> props["RRULE"].Recur? && RuleValid(props["RRULE"].rule))
    && ("EXDATE" in props ==> props["EXDATE"].ExDates? && ExDatesValid(props["EXDATE"].lists))
    && ("STATUS" in props ==> props["STATUS"].Text?)
    && ("CATEGORIES" in props ==> props["CATEGORIES"].Categories?)
  }

  /** Property p, when present, is a valid date or datetime. */
  predicate IsWhen(props: map<string, Value>, p: string) {
    p in props ==> props[p].When? && ValidM(props[p].at)
  }

  predicate RuleValid(r: RRule) {
    r.until.Some? ==> ValidM(r.until.value)
  }

  predicate ExDatesValid(lists: seq<seq<Moment>>) {
    forall i, j :: 0 <= i < |lists| && 0 <= j < |lists[i]| ==> ValidM(lists[i][j])
  }

  /** An event or a to-do. The calendar index names the connector that stores it. */
  class Entry {
    const kind: Kind
    const calIdx: int
    var props: map<string, Value>
    /** Number of VALARM sub-components. */
    var alarmCount: nat

    constructor (kind: Kind, calIdx: int, props: map<string, Value>, alarmCount: nat)
      ensures this.kind == kind && this.calIdx == calIdx
      ensures this.props == props && this.alarmCount == alarmCount
    {
      this.kind := kind;
      this.calIdx := calIdx;
      this.props := props;
      this.alarmCount := alarmCount;
    }
  }

  /** Entries whose DTSTART the occurrence lists can read. */
  predicate HasStart(props: map<string, Value>) {
    "DTSTART" in props && WellTyped(props)
  }

  function StartOf(props: map<string, Value>): (m: Moment)
    requires HasStart(props)
    ensures ValidM(m)
  {
    props["DTSTART"].at
  }
}
