/**
 * The recurrence rules the agenda expands itself (a subset of RRULE,
 * section 3.3.10 of RFC 5545): the three shapes a rule takes once read —
 * one fixed step, a cycle of day gaps (WEEKLY on several days), or "the
 * n-th weekday of the month" — and the candidate occurrences each shape
 * generates from the first one.
 */
module RecurRule {
  import opened Wrappers
  import opened Dates
  import opened Text
  import opened Entries
  import opened Util

  /** How a rule can fail: ValueError, RepeatUnsupportedError, RepeatImpossibleError, RuntimeError. */
  datatype RepeatError = ValueError | Unsupported | Impossible | Unbounded

  /**
   * `RepeatInfo.delta` and the BYDAY fields:
   *  - Step(us): a `timedelta` of us microseconds;
   *  - MonthStep(n): a `relativedelta` of n months (YEARLY: 12 per year);
   *  - Cycle(days): the list of day gaps of a multi-day WEEKLY rule;
   *  - ByWeekday(n, idx, wday): every n months, the idx-th weekday wday.
   */
  datatype Form = Step(us: int) | MonthStep(n: int) | Cycle(days: seq<int>) | ByWeekday(n: int, idx: int, wday: int)

  function Abs(x: int): nat {
    if x < 0 then -x else x
  }

  /** Index of a weekday abbreviation in ('MO', ..., 'SU'), as `DAY_ABBR.index`. */
  function DayIndex(s: string): (r: Option<int>)
    ensures r.Some? ==> 0 <= r.value < 7 && DayAbbr(r.value) == s
    ensures r.None? ==> forall w :: 0 <= w < 7 ==> DayAbbr(w) != s
  {
    if s == "MO" then Some(0) else if s == "TU" then Some(1) else if s == "WE" then Some(2)
    else if s == "TH" then Some(3) else if s == "FR" then Some(4) else if s == "SA" then Some(5)
    else if s == "SU" then Some(6) else None
  }

  function DayAbbr(w: int): string
    requires 0 <= w < 7
  {
    ["MO", "TU", "WE", "TH", "FR", "SA", "SU"][w]
  }

  // ---------------------------------------------------------------------
  // firstday_to_byweekdayinmonth

  /**
   * `firstday_to_byweekdayinmonth`: from the first day of a month, the
   * idx-th day with weekday wday, counted from the start of the month when
   * idx > 0 and from its end when idx < 0.
   */
  function FirstdayTo(first: Date, idx: int, wday: int): (r: Date)
    requires Valid(first) && first.day == 1 && 1 <= Abs(idx) <= 4 && 0 <= wday < 7
    ensures Valid(r) && r.year == first.year && r.month == first.month
    ensures Weekday(r) == wday
    ensures idx > 0 ==> (r.day - 1) / 7 == idx - 1
    ensures idx < 0 ==> (DaysInMonth(r.year, r.month) - r.day) / 7 == -idx - 1
  {
    var fw := Weekday(first);
    var dim := DaysInMonth(first.year, first.month);
    var r := Date(first.year, first.month, ByWeekdayDay(fw, dim, idx, wday));
    FirstdayWeekday(first, r);
    r
  }

  /** The day of the month `firstday_to_byweekdayinmonth` computes, for a month of dim days starting on weekday fw. */
  function ByWeekdayDay(fw: int, dim: int, idx: int, wday: int): (day: int)
    requires 0 <= fw < 7 && 28 <= dim <= 31 && 1 <= Abs(idx) <= 4 && 0 <= wday < 7
    ensures 1 <= day <= dim && (fw + day - 1) % 7 == wday
    ensures idx > 0 ==> (day - 1) / 7 == idx - 1
    ensures idx < 0 ==> (dim - day) / 7 == -idx - 1
  {
    if idx > 0 then
      var off := (wday - fw) % 7;
      ForwardDay(fw, off, idx, wday);
      1 + off + (idx - 1) * 7
    else
      var last := (fw + dim - 1) % 7;
      var delta := (wday - last) % 7;
      var back := if delta != 0 then 7 - delta else 0;
      BackwardDay(fw, dim, last, back, idx, wday);
      dim - back + (idx + 1) * 7
  }

  lemma ForwardDay(fw: int, off: int, idx: int, wday: int)
    requires 0 <= fw < 7 && 0 <= wday < 7 && off == (wday - fw) % 7 && 1 <= idx <= 4
    ensures (fw + off + (idx - 1) * 7) % 7 == wday
    ensures (off + (idx - 1) * 7) / 7 == idx - 1
  {
    assert fw + off == wday || fw + off == wday + 7;
  }

  lemma BackwardDay(fw: int, dim: int, last: int, back: int, idx: int, wday: int)
    requires 0 <= fw < 7 && 28 <= dim <= 31 && 0 <= wday < 7 && -4 <= idx <= -1
    requires last == (fw + dim - 1) % 7
    requires back == if (wday - last) % 7 != 0 then 7 - (wday - last) % 7 else 0
    ensures 0 <= back < 7
    ensures (fw + dim - back + (idx + 1) * 7 - 1) % 7 == wday
    ensures (back - (idx + 1) * 7) / 7 == -idx - 1
  {
    var q := (fw + dim - 1) / 7;
    assert fw + dim - 1 == 7 * q + last;
    assert last - back == wday || last - back == wday - 7;
    assert fw + dim - back + (idx + 1) * 7 - 1 == 7 * (q + idx + 1) + (last - back);
  }

  lemma FirstdayWeekday(first: Date, r: Date)
    requires Valid(first) && first.day == 1 && Valid(r) && r.year == first.year && r.month == first.month
    ensures Weekday(r) == (Weekday(first) + r.day - 1) % 7
  {
    WeekdayOfOrdinal(first, r);
  }

  /** The moment on the chosen day, at the time of day of the reference. */
  function FirstdayToM(ref: Moment, idx: int, wday: int): (r: Moment)
    requires ValidM(ref) && ref.date.day == 1 && 1 <= Abs(idx) <= 4 && 0 <= wday < 7
    ensures ValidM(r) && r.TimeM? == ref.TimeM? && (ref.TimeM? ==> r.us == ref.us)
    ensures MonthIndex(r.date) == MonthIndex(ref.date)
  {
    ref.(date := FirstdayTo(ref.date, idx, wday))
  }

  /** `m.replace(day=1)`. */
  function FirstOfMonthM(m: Moment): (r: Moment)
    requires ValidM(m)
    ensures ValidM(r) && r.date.day == 1 && MonthIndex(r.date) == MonthIndex(m.date)
    ensures r.TimeM? == m.TimeM? && (m.TimeM? ==> r.us == m.us)
  {
    m.(date := FirstOfMonth(m.date))
  }

  /** `m + relativedelta(months=k)`: the time of day is kept. */
  function AddMonthsM(m: Moment, k: int): (r: Moment)
    requires ValidM(m)
    ensures ValidM(r) && r.TimeM? == m.TimeM? && (m.TimeM? ==> r.us == m.us)
    ensures MonthIndex(r.date) == MonthIndex(m.date) + k
  {
    m.(date := AddMonths(m.date, k))
  }

  // ---------------------------------------------------------------------
  // The weekly cycle of _set_weekly

  /**
   * The day gaps `_set_weekly` collects while it rotates from the start
   * weekday sw through steps t..7 of the week: acc days have passed since
   * the last selected day, and crossing the week-start weekday wk adds the
   * skipped weeks of the interval.
   */
  function CycleFrom(sw: int, sel: set<int>, interval: int, wk: int, t: int, acc: int): seq<int>
    requires 1 <= t <= 7
    decreases 7 - t
  {
    var w := (sw + t) % 7;
    var i := acc + 1 + (if w == wk then 7 * (interval - 1) else 0);
    var rest := if t == 7 then [] else CycleFrom(sw, sel, interval, wk, t + 1, if w in sel then 0 else i);
    if w in sel then [i] + rest else rest
  }

  /** The gap list of a WEEKLY rule whose weekdays are sel and whose DTSTART weekday is sw. */
  function WeeklyCycle(sw: int, sel: set<int>, interval: int, wk: int): seq<int> {
    CycleFrom(sw, sel, interval, wk, 1, 0)
  }

  function Sum(s: seq<int>): int {
    if |s| == 0 then 0 else Sum(s[..|s| - 1]) + s[|s| - 1]
  }

  lemma SumAppend(a: seq<int>, b: seq<int>)
    ensures Sum(a + b) == Sum(a) + Sum(b)
    decreases |b|
  {
    if |b| > 0 {
      assert (a + b)[..|a + b| - 1] == a + b[..|b| - 1];
      SumAppend(a, b[..|b| - 1]);
    } else {
      assert a + b == a;
    }
  }

  lemma SumCons(x: int, s: seq<int>)
    ensures Sum([x] + s) == x + Sum(s)
  {
    SumAppend([x], s);
    assert [x][..0] == [];
  }

  /** The skipped weeks added over steps t..7 of the rotation, where the week-start weekday is crossed. */
  function Extra(sw: int, interval: int, wk: int, t: int): int
    requires 1 <= t <= 7
    decreases 7 - t
  {
    (if (sw + t) % 7 == wk then 7 * (interval - 1) else 0) + (if t == 7 then 0 else Extra(sw, interval, wk, t + 1))
  }

  lemma {:induction false} CycleFromSum(sw: int, sel: set<int>, interval: int, wk: int, t: int, acc: int)
    requires 1 <= t <= 7 && sw in sel && 0 <= sw < 7
    ensures Sum(CycleFrom(sw, sel, interval, wk, t, acc)) == acc + (8 - t) + Extra(sw, interval, wk, t)
    decreases 7 - t
  {
    if t == 7 {
      CycleFromSumLast(sw, sel, interval, wk, acc);
    } else {
      var w := (sw + t) % 7;
      var i := acc + 1 + (if w == wk then 7 * (interval - 1) else 0);
      var acc' := if w in sel then 0 else i;
      CycleFromSum(sw, sel, interval, wk, t + 1, acc');
      CycleFromSumStep(sw, sel, interval, wk, t, acc, CycleFrom(sw, sel, interval, wk, t + 1, acc'));
    }
  }

  /** The seventh turn is back on the start weekday, which is selected: one last gap. */
  lemma CycleFromSumLast(sw: int, sel: set<int>, interval: int, wk: int, acc: int)
    requires sw in sel && 0 <= sw < 7
    ensures Sum(CycleFrom(sw, sel, interval, wk, 7, acc)) == acc + 1 + Extra(sw, interval, wk, 7)
  {
    var i := acc + 1 + (if sw == wk then 7 * (interval - 1) else 0);
    assert (sw + 7) % 7 == sw;
    assert CycleFrom(sw, sel, interval, wk, 7, acc) == [i] + [];
    SumCons(i, []);
  }

  lemma CycleFromSumStep(sw: int, sel: set<int>, interval: int, wk: int, t: int, acc: int, rest: seq<int>)
    requires 1 <= t < 7
    requires var w := (sw + t) % 7;
      var i := acc + 1 + (if w == wk then 7 * (interval - 1) else 0);
      rest == CycleFrom(sw, sel, interval, wk, t + 1, if w in sel then 0 else i)
      && Sum(rest) == (if w in sel then 0 else i) + (7 - t) + Extra(sw, interval, wk, t + 1)
    ensures Sum(CycleFrom(sw, sel, interval, wk, t, acc)) == acc + (8 - t) + Extra(sw, interval, wk, t)
  {
    var w := (sw + t) % 7;
    var i := acc + 1 + (if w == wk then 7 * (interval - 1) else 0);
    if w in sel {
      assert CycleFrom(sw, sel, interval, wk, t, acc) == [i] + rest;
      SumCons(i, rest);
    } else {
      assert CycleFrom(sw, sel, interval, wk, t, acc) == rest;
    }
  }

  /** The rotation crosses the week-start weekday exactly once. */
  lemma ExtraOnce(sw: int, interval: int, wk: int)
    requires 0 <= sw < 7 && 0 <= wk < 7
    ensures Extra(sw, interval, wk, 1) == 7 * (interval - 1)
  {
    var e := Extra(sw, interval, wk, 2);
    e := Extra(sw, interval, wk, 3);
    e := Extra(sw, interval, wk, 4);
    e := Extra(sw, interval, wk, 5);
    e := Extra(sw, interval, wk, 6);
    e := Extra(sw, interval, wk, 7);
  }

  /** The gaps of a weekly cycle add up to INTERVAL weeks. */
  lemma WeeklyCycleSum(sw: int, sel: set<int>, interval: int, wk: int)
    requires 0 <= sw < 7 && sw in sel && 0 <= wk < 7
    ensures Sum(WeeklyCycle(sw, sel, interval, wk)) == 7 * interval
  {
    CycleFromSum(sw, sel, interval, wk, 1, 0);
    ExtraOnce(sw, interval, wk);
  }

  lemma {:induction false} CycleFromPositive(sw: int, sel: set<int>, interval: int, wk: int, t: int, acc: int)
    requires 1 <= t <= 7 && interval >= 1 && acc >= 0
    ensures forall j :: 0 <= j < |CycleFrom(sw, sel, interval, wk, t, acc)| ==> CycleFrom(sw, sel, interval, wk, t, acc)[j] >= 1
    decreases 7 - t
  {
    var w := (sw + t) % 7;
    var i := acc + 1 + (if w == wk then 7 * (interval - 1) else 0);
    if t < 7 {
      CycleFromPositive(sw, sel, interval, wk, t + 1, if w in sel then 0 else i);
    }
  }

  /** Every gap of a weekly cycle is at least one day. */
  lemma WeeklyCyclePositive(sw: int, sel: set<int>, interval: int, wk: int)
    requires interval >= 1
    ensures forall j :: 0 <= j < |WeeklyCycle(sw, sel, interval, wk)| ==> WeeklyCycle(sw, sel, interval, wk)[j] >= 1
  {
    CycleFromPositive(sw, sel, interval, wk, 1, 0);
  }

  /** Rotation steps t..7 that land on a selected weekday. */
  function Landings(sw: int, sel: set<int>, t: int): set<int>
    requires 1 <= t <= 8
  {
    set u | t <= u <= 7 && LandsOn(sw, sel, u)
  }

  predicate LandsOn(sw: int, sel: set<int>, u: int) {
    (sw + u) % 7 in sel
  }

  /** The weekday reached from weekday `from` after the first j + 1 gaps of r. */
  function Reached(from: int, r: seq<int>, j: int): int
    requires 0 <= j < |r|
  {
    (from + Sum(r[..j + 1])) % 7
  }

  lemma {:induction false} CycleFromLength(sw: int, sel: set<int>, interval: int, wk: int, t: int, acc: int)
    requires 1 <= t <= 7
    ensures |CycleFrom(sw, sel, interval, wk, t, acc)| == |Landings(sw, sel, t)|
    decreases 7 - t
  {
    var w := (sw + t) % 7;
    var i := acc + 1 + (if w == wk then 7 * (interval - 1) else 0);
    var rest := Landings(sw, sel, t + 1);
    if t < 7 {
      CycleFromLength(sw, sel, interval, wk, t + 1, if w in sel then 0 else i);
    } else {
      assert rest == {};
    }
    if w in sel {
      assert Landings(sw, sel, t) == {t} + rest;
    } else {
      assert Landings(sw, sel, t) == rest;
    }
  }

  /** One gap per selected day of the week: the cycle has as many gaps as the rotation has landings. */
  lemma WeeklyCycleLength(sw: int, sel: set<int>, interval: int, wk: int)
    ensures |WeeklyCycle(sw, sel, interval, wk)| == |Landings(sw, sel, 1)|
  {
    CycleFromLength(sw, sel, interval, wk, 1, 0);
  }

  lemma {:induction false} CycleFromLands(sw: int, sel: set<int>, interval: int, wk: int, t: int, acc: int, from: int)
    requires 1 <= t <= 7 && from == sw + t - 1 - acc
    ensures forall j :: 0 <= j < |CycleFrom(sw, sel, interval, wk, t, acc)| ==>
      Reached(from, CycleFrom(sw, sel, interval, wk, t, acc), j) in sel
    decreases 7 - t
  {
    var w := (sw + t) % 7;
    var c := if w == wk then interval - 1 else 0;
    var i := acc + 1 + 7 * c;
    var acc' := if w in sel then 0 else i;
    var rest := if t == 7 then [] else CycleFrom(sw, sel, interval, wk, t + 1, acc');
    var next := sw + t - acc';
    if t < 7 {
      CycleFromLands(sw, sel, interval, wk, t + 1, acc', next);
    }
    var r := CycleFrom(sw, sel, interval, wk, t, acc);
    assert r == if w in sel then [i] + rest else rest;
    forall j | 0 <= j < |r| ensures Reached(from, r, j) in sel {
      if w in sel && j == 0 {
        ReachedFirst(from, i, rest);
        assert from + i == sw + t + 7 * c;
        ShiftWeeks(sw + t, c);
      } else if w in sel {
        ReachedCons(from, i, rest, j);
        assert from + i == next + 7 * c;
        ReachedShift(next, rest, j - 1, c);
      } else {
        assert from == next + 7 * c;
        ReachedShift(next, rest, j, c);
      }
    }
  }

  lemma ReachedFirst(from: int, i: int, rest: seq<int>)
    ensures Reached(from, [i] + rest, 0) == (from + i) % 7
  {
    assert ([i] + rest)[..1] == [i];
    SumCons(i, []);
  }

  lemma ReachedCons(from: int, i: int, rest: seq<int>, j: int)
    requires 0 < j <= |rest|
    ensures Reached(from, [i] + rest, j) == Reached(from + i, rest, j - 1)
  {
    assert ([i] + rest)[..j + 1] == [i] + rest[..j];
    SumCons(i, rest[..j]);
  }

  lemma ReachedShift(from: int, r: seq<int>, j: int, c: int)
    requires 0 <= j < |r|
    ensures Reached(from + 7 * c, r, j) == Reached(from, r, j)
  {
    ShiftWeeks(from + Sum(r[..j + 1]), c);
  }

  lemma ShiftWeeks(x: int, c: int)
    ensures (x + 7 * c) % 7 == x % 7
  {
  }

  /**
   * Each gap lands on a selected weekday: from the DTSTART weekday sw, the
   * running sum of the first j + 1 gaps reaches a weekday in sel.
   */
  lemma WeeklyCycleLands(sw: int, sel: set<int>, interval: int, wk: int)
    ensures forall j :: 0 <= j < |WeeklyCycle(sw, sel, interval, wk)| ==>
      Reached(sw, WeeklyCycle(sw, sel, interval, wk), j) in sel
  {
    CycleFromLands(sw, sel, interval, wk, 1, 0, sw);
  }

  /**
   * The gap-building loop of `_set_weekly`: a marker starts on the DTSTART
   * weekday and rotates one weekday per turn (the seven-bit rotation of the
   * source, with the weekday mask as a set), counting days. Passing the
   * week start adds the INTERVAL-1 skipped weeks; landing on a selected
   * weekday emits the count and restarts it; the loop ends when the marker
   * is back on the DTSTART weekday.
   */
  method WeeklyDeltas(sw: int, sel: set<int>, interval: int, wk: int) returns (delta: seq<int>)
    requires 0 <= sw < 7
    ensures delta == WeeklyCycle(sw, sel, interval, wk)
  {
    ghost var whole := WeeklyCycle(sw, sel, interval, wk);
    delta := [];
    var bit := sw;
    var i := 0;
    ghost var t := 0;
    while true
      invariant TurnsLeft(sw, sel, interval, wk, t, bit, i, delta, whole)
      decreases 7 - t
    {
      ghost var d0, i0, b0 := delta, i, bit;
      i := i + 1;
      bit := (bit + 1) % 7;
      if bit == wk {
        i := i + 7 * (interval - 1);
      }
      if bit in sel {
        delta := delta + [i];
        i := 0;
      }
      Turn(sw, sel, interval, wk, t, b0, i0, d0, whole, bit, if bit in sel then delta[|delta| - 1] else i, delta, i);
      t := t + 1;
      if bit == sw {
        return;
      }
    }
  }

  /**
   * The loop state after t turns: what is emitted, followed by what the
   * remaining turns emit, is the whole cycle.
   */
  ghost predicate TurnsLeft(sw: int, sel: set<int>, interval: int, wk: int, t: int, bit: int, i: int,
                            delta: seq<int>, whole: seq<int>) {
    0 <= t <= 6 && bit == (sw + t) % 7
    && delta + CycleFrom(sw, sel, interval, wk, t + 1, i) == whole
  }

  /** One turn of the loop keeps `TurnsLeft`, or completes the cycle after the seventh turn. */
  lemma Turn(sw: int, sel: set<int>, interval: int, wk: int, t: int, bit: int, i: int, delta: seq<int>, whole: seq<int>,
             b: int, i1: int, d: seq<int>, i2: int)
    requires 0 <= sw < 7 && TurnsLeft(sw, sel, interval, wk, t, bit, i, delta, whole)
    requires b == (bit + 1) % 7 && i1 == i + 1 + (if b == wk then 7 * (interval - 1) else 0)
    requires d == (if b in sel then delta + [i1] else delta) && i2 == (if b in sel then 0 else i1)
    ensures b == sw ==> d == whole
    ensures b != sw ==> TurnsLeft(sw, sel, interval, wk, t + 1, b, i2, d, whole)
  {
    RotateStep(sw, t);
    assert b == (sw + (t + 1)) % 7;
    CycleFromStep(sw, sel, interval, wk, t + 1, i, delta);
    if b == sw {
      assert d + [] == d;
    }
  }

  /** The marker after t + 1 turns is one weekday on, and it is back on the start only after seven. */
  lemma RotateStep(sw: int, t: int)
    requires 0 <= sw < 7 && 0 <= t <= 6
    ensures ((sw + t) % 7 + 1) % 7 == (sw + (t + 1)) % 7
    ensures (sw + (t + 1)) % 7 == sw <==> t == 6
  {
  }

  /** One turn of the gap-building loop, in terms of `CycleFrom`. */
  lemma CycleFromStep(sw: int, sel: set<int>, interval: int, wk: int, t: int, acc: int, done: seq<int>)
    requires 1 <= t <= 7
    ensures var w := (sw + t) % 7;
      var i := acc + 1 + (if w == wk then 7 * (interval - 1) else 0);
      var done' := if w in sel then done + [i] else done;
      var acc' := if w in sel then 0 else i;
      done + CycleFrom(sw, sel, interval, wk, t, acc)
        == done' + (if t == 7 then [] else CycleFrom(sw, sel, interval, wk, t + 1, acc'))
  {
    var w := (sw + t) % 7;
    var i := acc + 1 + (if w == wk then 7 * (interval - 1) else 0);
    if w in sel {
      assert done + ([i] + (if t == 7 then [] else CycleFrom(sw, sel, interval, wk, t + 1, 0)))
        == (done + [i]) + (if t == 7 then [] else CycleFrom(sw, sel, interval, wk, t + 1, 0));
    }
  }

  // ---------------------------------------------------------------------
  // Candidate occurrences

  /** Adding whole months to d never has to clamp its day. */
  predicate KeepsDay(d: Date, n: int) {
    d.day <= 28 || (n % 12 == 0 && !(d.month == 2 && d.day == 29))
  }

  /** What `RepeatInfo` guarantees of its delta once the rule is accepted. */
  predicate FormOk(f: Form, base: Moment)
    requires ValidM(base)
  {
    match f
    case Step(us) => us >= SecondUs && (base.DateM? ==> us % DayUs == 0)
    case MonthStep(n) => n >= 1 && KeepsDay(base.date, n)
    case Cycle(days) => |days| >= 1 && forall j :: 0 <= j < |days| ==> days[j] >= 1
    case ByWeekday(n, idx, wday) => n >= 1 && 1 <= Abs(idx) <= 4 && 0 <= wday < 7
  }

  /** Days covered by the first k gaps of a cycle (k may be negative, as with `divmod`). */
  function CycleDays(days: seq<int>, k: int): int
    requires |days| >= 1
  {
    (k / |days|) * Sum(days) + Sum(days[..k % |days|])
  }

  /**
   * The reference moment after k steps of the delta, the value Python keeps
   * in `start_in_rng`, `dt` or `dt_ref`; for ByWeekday it is the first of
   * the month.
   */
  function Pos(f: Form, base: Moment, k: int): (r: Moment)
    requires ValidM(base) && FormOk(f, base)
    ensures ValidM(r) && r.TimeM? == base.TimeM?
  {
    match f
    case Step(us) => AddUs(base, k * us)
    case MonthStep(n) => AddMonthsM(base, k * n)
    case Cycle(days) => AddUs(base, CycleDays(days, k) * DayUs)
    case ByWeekday(n, _, _) => AddMonthsM(FirstOfMonthM(base), k * n)
  }

  /** The k-th candidate occurrence, counting the first (DTSTART) as 0. */
  function Occ(f: Form, base: Moment, k: int): (r: Moment)
    requires ValidM(base) && FormOk(f, base)
    ensures ValidM(r) && r.TimeM? == base.TimeM?
  {
    var p := Pos(f, base, k);
    if f.ByWeekday? then FirstdayToM(p, f.idx, f.wday) else p
  }

  /** One `+= delta` of the iterators: the delta used at step k. */
  function Advance(f: Form, p: Moment, k: int): (r: Moment)
    requires ValidM(p) && (f.Cycle? ==> |f.days| >= 1)
  {
    match f
    case Step(us) => AddUs(p, us)
    case MonthStep(n) => AddMonthsM(p, n)
    case Cycle(days) => AddUs(p, days[k % |days|] * DayUs)
    case ByWeekday(n, _, _) => AddMonthsM(p, n)
  }

  lemma MonthIndexSame(a: Date, y: int, m: int)
    requires 1 <= a.month <= 12 && 1 <= m <= 12 && MonthIndex(a) == y * 12 + m - 1
    ensures a.year == y && a.month == m
  {
  }

  lemma AddMonthsZero(d: Date)
    requires Valid(d)
    ensures AddMonths(d, 0) == d
  {
    MonthIndexSame(AddMonths(d, 0), d.year, d.month);
  }

  lemma AddMonthsCompose(d: Date, a: int, b: int)
    requires Valid(d) && AddMonths(d, a).day == d.day
    ensures AddMonths(AddMonths(d, a), b) == AddMonths(d, a + b)
  {
    var x := AddMonths(AddMonths(d, a), b);
    var y := AddMonths(d, a + b);
    MonthIndexSame(x, y.year, y.month);
  }

  lemma MulTwelve(k: int, n: int)
    requires n % 12 == 0
    ensures (k * n) % 12 == 0
  {
    var q := n / 12;
    assert n == 12 * q;
    assert k * n == 12 * (k * q);
  }

  /** Under KeepsDay the day of the month survives any number of steps. */
  lemma MonthStepKeepsDay(d: Date, n: int, k: int)
    requires Valid(d) && KeepsDay(d, n)
    ensures AddMonths(d, k * n).day == d.day
  {
    if d.day > 28 {
      MulTwelve(k, n);
      var r := AddMonths(d, k * n);
      var q := (k * n) / 12;
      assert MonthIndex(r) == MonthIndex(d) + 12 * q;
      MonthIndexSame(r, d.year + q, d.month);
    }
  }

  lemma MulNonNeg(a: int, b: int)
    requires a >= 0 && b >= 0
    ensures a * b >= 0
  {
  }

  lemma Distrib(a: int, b: int, l: int)
    ensures (a + b) * l == a * l + b * l
  {
  }

  lemma DivModUnique(x: int, l: int, q: int, m: int)
    requires l >= 1 && 0 <= m < l && x == q * l + m
    ensures x / l == q && x % l == m
  {
    var q' := x / l;
    var m' := x % l;
    if q' > q {
      Distrib(q, q' - q - 1, l);
      Distrib(q + (q' - q - 1), 1, l);
      MulNonNeg(q' - q - 1, l);
      assert false;
    } else if q' < q {
      Distrib(q', q - q' - 1, l);
      Distrib(q' + (q - q' - 1), 1, l);
      MulNonNeg(q - q' - 1, l);
      assert false;
    }
  }

  lemma CycleDaysNext(days: seq<int>, k: int)
    requires |days| >= 1
    ensures CycleDays(days, k + 1) == CycleDays(days, k) + days[k % |days|]
  {
    var l := |days|;
    var q := k / l;
    var m := k % l;
    assert k == q * l + m;
    if m + 1 < l {
      DivModUnique(k + 1, l, q, m + 1);
      assert days[..m + 1][..m] == days[..m];
    } else {
      DivModUnique(k + 1, l, q + 1, 0);
      assert days[..m + 1] == days;
      assert days[..m + 1][..m] == days[..m];
      assert (q + 1) * Sum(days) == q * Sum(days) + Sum(days);
    }
  }

  lemma WholeDays(c: int)
    ensures (c * DayUs) % DayUs == 0
  {
  }

  lemma StepWholeDays(k: int, us: int)
    requires us % DayUs == 0
    ensures (k * us) % DayUs == 0
  {
    var q := us / DayUs;
    assert us == DayUs * q;
    assert k * us == (k * q) * DayUs;
  }

  /** Each `+= delta` of the iterators moves from the k-th reference moment to the next. */
  lemma PosNext(f: Form, base: Moment, k: int)
    requires ValidM(base) && FormOk(f, base)
    ensures Pos(f, base, k + 1) == Advance(f, Pos(f, base, k), k)
  {
    match f
    case Step(us) => StepNext(base, us, k);
    case MonthStep(n) => MonthNext(base, n, k);
    case Cycle(days) => CycleNext(base, days, k);
    case ByWeekday(n, _, _) => MonthNext(FirstOfMonthM(base), n, k);
  }

  lemma StepNext(base: Moment, us: int, k: int)
    requires ValidM(base) && (base.DateM? ==> us % DayUs == 0)
    ensures AddUs(base, (k + 1) * us) == AddUs(AddUs(base, k * us), us)
  {
    if base.DateM? {
      StepWholeDays(k, us);
    }
    AddUsAdd(base, k * us, us);
    Distrib(k, 1, us);
  }

  lemma MonthNext(base: Moment, n: int, k: int)
    requires ValidM(base) && KeepsDay(base.date, n)
    ensures AddMonthsM(base, (k + 1) * n) == AddMonthsM(AddMonthsM(base, k * n), n)
  {
    MonthStepKeepsDay(base.date, n, k);
    AddMonthsCompose(base.date, k * n, n);
    Distrib(k, 1, n);
  }

  lemma CycleNext(base: Moment, days: seq<int>, k: int)
    requires ValidM(base) && |days| >= 1
    ensures AddUs(base, CycleDays(days, k + 1) * DayUs) == AddUs(AddUs(base, CycleDays(days, k) * DayUs), days[k % |days|] * DayUs)
  {
    var a := CycleDays(days, k);
    var d := days[k % |days|];
    CycleDaysNext(days, k);
    WholeDays(a);
    WholeDays(d);
    AddUsAdd(base, a * DayUs, d * DayUs);
    assert CycleDays(days, k + 1) * DayUs == a * DayUs + d * DayUs;
  }

  /** Same time of day, an earlier month: an earlier moment, by at least a day. */
  lemma EarlierMonth(a: Moment, b: Moment)
    requires ValidM(a) && ValidM(b) && a.TimeM? == b.TimeM? && (a.TimeM? ==> a.us == b.us)
    requires MonthIndex(a.date) < MonthIndex(b.date)
    ensures Key(a) + DayUs <= Key(b)
  {
    MonthIndexOrder(a.date, b.date);
  }

  /** Consecutive candidates are at least a second apart (a day apart unless sub-daily). */
  lemma OccGap(f: Form, base: Moment, k: int)
    requires ValidM(base) && FormOk(f, base)
    ensures Key(Occ(f, base, k)) + SecondUs <= Key(Occ(f, base, k + 1))
    ensures !f.Step? || base.DateM? ==> Key(Occ(f, base, k)) + DayUs <= Key(Occ(f, base, k + 1))
  {
    PosNext(f, base, k);
    var p := Pos(f, base, k);
    match f
    case Step(us) =>
    case MonthStep(n) =>
      EarlierMonth(p, Pos(f, base, k + 1));
    case Cycle(days) =>
      assert days[k % |days|] >= 1;
    case ByWeekday(n, idx, wday) =>
      EarlierMonth(Occ(f, base, k), Occ(f, base, k + 1));
  }

  /** Candidates strictly increase with their index. */
  lemma {:induction false} OccMono(f: Form, base: Moment, j: int, k: int)
    requires ValidM(base) && FormOk(f, base) && j < k
    ensures Key(Occ(f, base, j)) < Key(Occ(f, base, k))
    decreases k - j
  {
    OccGap(f, base, j);
    if j + 1 < k {
      OccMono(f, base, j + 1, k);
    }
  }

  // ---------------------------------------------------------------------
  // Reading the rule: _set_freq, _set_yearly, _set_monthly, _set_weekly,
  // _set_byweekdayinmonth

  function IntervalOf(r: RRule): int {
    if r.interval.Some? then r.interval.value else 1
  }

  predicate IsSubday(f: Freq) {
    f.Hourly? || f.Minutely? || f.Secondly?
  }

  /** `rule[-2:]` and `rule[:-2]` of a BYDAY value such as "-1SU". */
  function AbbrPart(rule: string): string {
    if |rule| >= 2 then rule[|rule| - 2..] else rule
  }

  function NumberPart(rule: string): string {
    if |rule| >= 2 then rule[..|rule| - 2] else ""
  }

  /**
   * `_set_byweekdayinmonth`: a single BYDAY value "<idx><weekday>" with
   * 1 <= |idx| <= 4 that DTSTART itself satisfies.
   */
  function ByWeekdayForm(byday: seq<string>, n: int, base: Moment): (res: Result<Form, RepeatError>)
    requires ValidM(base) && n >= 1
    ensures res.Ok? ==> res.value.ByWeekday? && res.value.n == n && FormOk(res.value, base)
    ensures res.Ok? ==> Occ(res.value, base, 0) == base
    ensures res.Ok? ==>
      |byday| == 1 && DayIndex(AbbrPart(byday[0])) == Some(res.value.wday)
      && ParseInt(NumberPart(byday[0])) == Some(res.value.idx)
    ensures res == Err(Impossible) <==>
      |byday| == 1 && DayIndex(AbbrPart(byday[0])).Some?
      && ParseInt(NumberPart(byday[0])).Some?
      && (ParseInt(NumberPart(byday[0])).value == 0 || Abs(ParseInt(NumberPart(byday[0])).value) > 5)
    ensures res.Err? ==> res.error == Unsupported || res.error == Impossible
  {
    if |byday| != 1 then Err(Unsupported)
    else
      match DayIndex(AbbrPart(byday[0]))
      case None => Err(Unsupported)
      case Some(wday) =>
        match ParseInt(NumberPart(byday[0]))
        case None => Err(Unsupported)
        case Some(idx) =>
          if Abs(idx) == 0 || Abs(idx) > 5 then Err(Impossible)
          else if Abs(idx) == 5 then Err(Unsupported)
          else if FirstdayToM(FirstOfMonthM(base), idx, wday) != base then Err(Unsupported)
          else
            AddMonthsZero(FirstOfMonthM(base).date);
            Ok(ByWeekday(n, idx, wday))
  }

  /** The weekday set of a WEEKLY BYDAY list, or None when a value is not a weekday abbreviation. */
  function DayMask(byday: seq<string>): (r: Option<set<int>>)
    ensures r.Some? <==> forall j :: 0 <= j < |byday| ==> DayIndex(byday[j]).Some?
    ensures r.Some? ==> forall w :: w in r.value <==> 0 <= w < 7 && DayAbbr(w) in byday
  {
    if |byday| == 0 then Some({})
    else
      match DayMask(byday[..|byday| - 1])
      case None => None
      case Some(m) =>
        match DayIndex(byday[|byday| - 1])
        case None => None
        case Some(w) =>
          assert forall j :: 0 <= j < |byday| - 1 ==> byday[..|byday| - 1][j] == byday[j];
          assert forall x :: x in byday <==> x in byday[..|byday| - 1] || x == byday[|byday| - 1];
          Some(m + {w})
  }

  lemma LandsOnStart(sw: int, sel: set<int>)
    requires 0 <= sw < 7 && sw in sel
    ensures |Landings(sw, sel, 1)| >= 1
  {
    assert LandsOn(sw, sel, 7);
    assert 7 in Landings(sw, sel, 1);
  }

  /** A weekly cycle is an acceptable shape that starts on DTSTART and spans INTERVAL weeks. */
  lemma WeeklyCycleOk(sw: int, sel: set<int>, interval: int, wk: int, base: Moment)
    requires ValidM(base) && sw == Weekday(base.date) && sw in sel && 0 <= wk < 7 && interval >= 1
    ensures FormOk(Cycle(WeeklyCycle(sw, sel, interval, wk)), base)
    ensures Occ(Cycle(WeeklyCycle(sw, sel, interval, wk)), base, 0) == base
    ensures Sum(WeeklyCycle(sw, sel, interval, wk)) == 7 * interval
  {
    var days := WeeklyCycle(sw, sel, interval, wk);
    WeeklyCyclePositive(sw, sel, interval, wk);
    WeeklyCycleLength(sw, sel, interval, wk);
    WeeklyCycleSum(sw, sel, interval, wk);
    LandsOnStart(sw, sel);
    CycleStartsAtBase(days, base);
  }

  /** A cycle of gaps takes no step before its first occurrence. */
  lemma CycleStartsAtBase(days: seq<int>, base: Moment)
    requires ValidM(base) && FormOk(Cycle(days), base)
    ensures Occ(Cycle(days), base, 0) == base
  {
    assert days[..0] == [];
    assert CycleDays(days, 0) == 0;
  }

  /**
   * `_set_weekly`: one step of INTERVAL weeks when BYDAY names no other day
   * than DTSTART's, otherwise the cycle of day gaps between the selected
   * weekdays. A BYDAY list that leaves out DTSTART's weekday is a ValueError.
   */
  function WeeklyForm(byday: seq<string>, wkst: Option<string>, interval: int, base: Moment): (res: Result<Form, RepeatError>)
    requires ValidM(base) && interval >= 1
    ensures res.Ok? ==> FormOk(res.value, base) && Occ(res.value, base, 0) == base
    ensures res.Ok? && res.value.Cycle? ==> Sum(res.value.days) == 7 * interval
    ensures res.Ok? && res.value.Step? ==> res.value.us == 7 * interval * DayUs
    ensures DayMask(byday).Some? && |DayMask(byday).value| > 0 && Weekday(base.date) !in DayMask(byday).value ==>
      res == Err(ValueError)
    ensures DayMask(byday).None? ==> res == Err(Unsupported)
  {
    var sw := Weekday(base.date);
    match DayMask(byday)
    case None => Err(Unsupported)
    case Some(mask) =>
      if |mask| > 0 && sw !in mask then Err(ValueError)
      else if |mask| == 0 || mask == {sw} then
        WholeDays(7 * interval);
        Ok(Step(7 * interval * DayUs))
      else
        var wk := if interval > 1 && wkst.Some? then DayIndex(wkst.value) else Some(0);
        if wk.None? then Err(ValueError)
        else
          WeeklyCycleOk(sw, mask, interval, wk.value, base);
          Ok(Cycle(WeeklyCycle(sw, mask, interval, wk.value)))
  }

  /**
   * `_set_weekly` step by step: the BYDAY loop builds the weekday mask,
   * then come the checks, the week start, and the gap-building loop.
   */
  method SetWeekly(byday: seq<string>, wkst: Option<string>, interval: int, base: Moment)
    returns (res: Result<Form, RepeatError>)
    requires ValidM(base) && interval >= 1
    ensures res == WeeklyForm(byday, wkst, interval, base)
  {
    var sw := Weekday(base.date);
    var mask: set<int> := {};
    var n := 0;
    while n < |byday|
      invariant 0 <= n <= |byday| && DayMask(byday[..n]) == Some(mask)
    {
      assert byday[..n + 1][..n] == byday[..n];
      var w := DayIndex(byday[n]);
      if w.None? {
        return Err(Unsupported);
      }
      mask := mask + {w.value};
      n := n + 1;
    }
    assert byday[..n] == byday;
    if |mask| > 0 && sw !in mask {
      return Err(ValueError);
    }
    if |mask| == 0 || mask == {sw} {
      WholeDays(7 * interval);
      return Ok(Step(7 * interval * DayUs));
    }
    var wk := 0;
    if interval > 1 && wkst.Some? {
      var idx := DayIndex(wkst.value);
      if idx.None? {
        return Err(ValueError);
      }
      wk := idx.value;
    }
    var delta := WeeklyDeltas(sw, mask, interval, wk);
    WeeklyCycleOk(sw, mask, interval, wk, base);
    res := Ok(Cycle(delta));
  }

  /**
   * The YEARLY 29 February test of `RepeatInfo.__init__` followed by
   * `_set_freq`: the shape of an accepted rule, or the error it raises.
   */
  function FreqForm(r: RRule, base: Moment): (res: Result<Form, RepeatError>)
    requires ValidM(base) && (IsSubday(r.freq) ==> base.TimeM?)
    ensures res.Ok? ==> FormOk(res.value, base) && Occ(res.value, base, 0) == base
  {
    var interval := IntervalOf(r);
    if r.freq.Yearly? && base.date.month == 2 && base.date.day == 29 && (|r.bymonth| == 0 || |r.byday| == 0) then Err(Unsupported)
    else if interval <= 0 then Err(ValueError)
    else if |r.bymonth| > 1 then Err(Unsupported)
    else if |r.byday| > 0 && !(r.freq.Yearly? || r.freq.Monthly? || r.freq.Weekly?) then Err(Unsupported)
    else if r.otherParts then Err(Unsupported)
    else if |r.bymonthday| > 0 && !(r.freq.Yearly? && |r.bymonth| == 1 && |r.bymonthday| == 1
      && r.bymonthday[0] == base.date.day && r.bymonth[0] == base.date.month) then Err(Unsupported)
    else
      match r.freq
      case Yearly =>
        if |r.byday| > 0 then
          if |r.bymonth| == 0 || r.bymonth[0] != base.date.month then Err(Unsupported)
          else ByWeekdayForm(r.byday, 12 * interval, base)
        else
          AddMonthsZero(base.date);
          Ok(MonthStep(12 * interval))
      case Monthly =>
        if |r.byday| > 0 then ByWeekdayForm(r.byday, interval, base)
        else if base.date.day > 28 then Err(Unsupported)
        else
          AddMonthsZero(base.date);
          Ok(MonthStep(interval))
      case Weekly => WeeklyForm(r.byday, r.wkst, interval, base)
      case Daily =>
        WholeDays(interval);
        Ok(Step(interval * DayUs))
      case Hourly => Ok(Step(interval * HourUs))
      case Minutely => Ok(Step(interval * MinuteUs))
      case Secondly => Ok(Step(interval * SecondUs))
      case OtherFreq(_) => Err(Unsupported)
  }

  /** A rule is read only when its interval is positive and it has no part the reader lacks. */
  lemma FreqFormAccepts(r: RRule, base: Moment)
    requires ValidM(base) && (IsSubday(r.freq) ==> base.TimeM?)
    ensures FreqForm(r, base).Ok? ==> IntervalOf(r) >= 1 && !r.otherParts && |r.bymonth| <= 1
    ensures r.freq.OtherFreq? ==> FreqForm(r, base).Err?
    ensures FreqForm(r, base) != Err(Unbounded)
  {
  }

  /** A non-positive interval is a ValueError, except for the February 29 case rejected first. */
  lemma FreqFormBadInterval(r: RRule, base: Moment)
    requires ValidM(base) && (IsSubday(r.freq) ==> base.TimeM?)
    requires IntervalOf(r) <= 0 && !(r.freq.Yearly? && base.date.month == 2 && base.date.day == 29)
    ensures FreqForm(r, base) == Err(ValueError)
  {
  }

  /** The delta each frequency reads to: days for DAILY, months for MONTHLY and YEARLY. */
  lemma FreqFormShapes(r: RRule, base: Moment)
    requires ValidM(base) && (IsSubday(r.freq) ==> base.TimeM?)
    ensures var res := FreqForm(r, base);
      res.Ok? && r.freq.Daily? ==> res.value == Step(IntervalOf(r) * DayUs)
    ensures var res := FreqForm(r, base);
      res.Ok? && r.freq.Monthly? && |r.byday| == 0 ==> res.value == MonthStep(IntervalOf(r)) && base.date.day <= 28
    ensures var res := FreqForm(r, base);
      res.Ok? && r.freq.Yearly? ==> res.value.MonthStep? || (res.value.ByWeekday? && r.bymonth == [base.date.month])
  {
  }

  // ---------------------------------------------------------------------
  // _set_exdates and is_exdate

  /** Every moment listed by the entry's EXDATE properties. */
  function ExdateSet(lists: seq<seq<Moment>>): (r: set<Moment>)
    ensures forall m :: m in r <==> exists i :: 0 <= i < |lists| && m in lists[i]
  {
    if |lists| == 0 then {}
    else
      var r := ExdateSet(lists[..|lists| - 1]) + ElemSet(lists[|lists| - 1]);
      assert forall i :: 0 <= i < |lists| - 1 ==> lists[..|lists| - 1][i] == lists[i];
      r
  }

  function ElemSet(s: seq<Moment>): (r: set<Moment>)
    ensures forall m :: m in r <==> m in s
  {
    set i | 0 <= i < |s| :: s[i]
  }

  /**
   * `is_exdate`: listed exactly, or, for a timed daily-or-longer repeat, on
   * a day listed as a plain date.
   */
  function IsExdate(exdates: Option<set<Moment>>, timed: bool, subday: bool, m: Moment): (r: bool)
    ensures exdates.None? ==> !r
    ensures exdates.Some? && m in exdates.value ==> r
    ensures exdates.Some? && m !in exdates.value ==>
      (r <==> timed && !subday && m.TimeM? && DateM(m.date) in exdates.value)
  {
    if exdates.None? then false
    else if m in exdates.value then true
    else timed && !subday && match m { case TimeM(d, _) => DateM(d) in exdates.value case DateM(_) => false }
  }

  // ---------------------------------------------------------------------
  // _set_stop

  /** The first instant after m that `_set_stop` uses: a millisecond after a datetime, the first microsecond of a date. */
  function JustAfter(m: Moment): (r: Moment)
    requires ValidM(m)
    ensures ValidM(r) && r.TimeM? && Key(m) < Key(r) <= Key(m) + MsUs
  {
    if m.TimeM? then AddUs(m, MsUs) else Combine(m.date, 1)
  }

  /**
   * The exclusive stop before COUNT is looked at: the range stop, or just
   * after the inclusive UNTIL when that comes first (a date UNTIL of a
   * timed repeat counts as its midnight).
   */
  function UntilStop(timed: bool, until: Option<Moment>, stop: Option<Moment>): (r: Option<Moment>)
    requires until.Some? ==> ValidM(until.value)
    requires stop.Some? ==> ValidM(stop.value)
    ensures r.None? <==> until.None? && stop.None?
    ensures r.Some? ==> ValidM(r.value)
    ensures until.None? ==> r == stop
  {
    var u := if timed && until.Some? then Some(DateToDatetime(until.value)) else until;
    if u.None? || (stop.Some? && Key(stop.value) <= Key(u.value)) then stop
    else Some(JustAfter(u.value))
  }

  /**
   * UNTIL is inclusive and the range stop exclusive: on the millisecond
   * grid, a moment is before the combined bound exactly when it is no later
   * than UNTIL and before the stop.
   */
  lemma UntilStopInclusive(timed: bool, until: Moment, stop: Option<Moment>, m: Moment)
    requires ValidM(until) && ValidM(m) && (stop.Some? ==> ValidM(stop.value))
    requires Key(m) % MsUs == 0 && Key(until) % MsUs == 0
    ensures var r := UntilStop(timed, Some(until), stop);
      r.Some? && Key(m) < Key(r.value) <==> Key(m) <= Key(until) && (stop.None? || Key(m) < Key(stop.value))
  {
    var u := if timed then DateToDatetime(until) else until;
    assert Key(u) == Key(until);
    if stop.Some? && Key(stop.value) <= Key(u) {
      assert UntilStop(timed, Some(until), stop) == stop;
    } else {
      var j := JustAfter(u);
      assert UntilStop(timed, Some(until), stop) == Some(j);
      if Key(m) > Key(until) {
        GridGap(Key(m), Key(until));
      }
    }
  }

  lemma GridGap(x: int, y: int)
    requires x % MsUs == 0 && y % MsUs == 0 && x > y
    ensures x >= y + MsUs
  {
    var a := x / MsUs;
    var b := y / MsUs;
    assert x == MsUs * a;
    assert y == MsUs * b;
  }

  /** The last moment COUNT admits, `last_by_count`: candidate count - 1. */
  function LastByCount(f: Form, base: Moment, count: int): (r: Moment)
    requires ValidM(base) && FormOk(f, base)
    ensures ValidM(r) && r == Occ(f, base, count - 1)
  {
    Occ(f, base, count - 1)
  }

  /** COUNT narrows the bound to just after candidate count - 1 when that comes first. */
  function CountStop(f: Form, base: Moment, count: int, bound: Option<Moment>): (r: Moment)
    requires ValidM(base) && FormOk(f, base) && (bound.Some? ==> ValidM(bound.value))
    ensures ValidM(r)
  {
    var last := LastByCount(f, base, count);
    if bound.None? || Key(last) < Key(bound.value) then JustAfter(last) else bound.value
  }

  /** The bound COUNT gives admits exactly the first count candidates that the other bound admits. */
  lemma CountStopAdmits(f: Form, base: Moment, count: int, bound: Option<Moment>, k: int)
    requires ValidM(base) && FormOk(f, base) && (bound.Some? ==> ValidM(bound.value))
    ensures Key(Occ(f, base, k)) < Key(CountStop(f, base, count, bound)) <==>
      k < count && (bound.None? || Key(Occ(f, base, k)) < Key(bound.value))
  {
    if k < count - 1 {
      OccMono(f, base, k, count - 1);
    } else if k >= count {
      OccGap(f, base, count - 1);
      if count < k {
        OccMono(f, base, count, k);
      }
    }
  }

  /**
   * `_set_stop`: the exclusive stop of the repeat. COUNT together with
   * EXDATE is not supported, and a repeat with neither a stop, an UNTIL
   * nor a COUNT is unbounded.
   */
  function SetStop(f: Form, base: Moment, timed: bool, until: Option<Moment>, stop: Option<Moment>,
                   count: Option<int>, hasExdates: bool): (res: Result<Moment, RepeatError>)
    requires ValidM(base) && FormOk(f, base)
    requires until.Some? ==> ValidM(until.value)
    requires stop.Some? ==> ValidM(stop.value)
    ensures res.Ok? ==> ValidM(res.value)
    ensures res == Err(Unsupported) <==> count.Some? && hasExdates
    ensures res == Err(Unbounded) <==> !(count.Some? && hasExdates) && until.None? && stop.None? && count.None?
    ensures res.Err? ==> res.error == Unsupported || res.error == Unbounded
  {
    var b := UntilStop(timed, until, stop);
    if count.Some? && hasExdates then Err(Unsupported)
    else if count.Some? then Ok(CountStop(f, base, count.value, b))
    else if b.None? then Err(Unbounded)
    else Ok(b.value)
  }

  /**
   * What the stop of `_set_stop` admits: the candidates before the range
   * stop, no later than UNTIL and among the first COUNT.
   */
  lemma SetStopAdmits(f: Form, base: Moment, timed: bool, until: Option<Moment>, stop: Option<Moment>,
                      count: Option<int>, hasExdates: bool, k: int)
    requires ValidM(base) && FormOk(f, base)
    requires until.Some? ==> ValidM(until.value) && Key(until.value) % MsUs == 0
    requires stop.Some? ==> ValidM(stop.value)
    requires SetStop(f, base, timed, until, stop, count, hasExdates).Ok?
    requires Key(Occ(f, base, k)) % MsUs == 0
    ensures var m := Occ(f, base, k);
      Key(m) < Key(SetStop(f, base, timed, until, stop, count, hasExdates).value) <==>
        (count.None? || k < count.value)
        && (stop.None? || Key(m) < Key(stop.value))
        && (until.None? || Key(m) <= Key(until.value))
  {
    var b := UntilStop(timed, until, stop);
    if until.Some? {
      UntilStopInclusive(timed, until.value, stop, Occ(f, base, k));
    }
    if count.Some? {
      CountStopAdmits(f, base, count.value, b, k);
    }
  }

  // ---------------------------------------------------------------------
  // The jump of _do_initial_jump

  /** `ceil(a / b)` for a positive divisor, computed exactly. */
  function CeilDiv(a: int, b: int): (q: int)
    requires b > 0
    ensures (q - 1) * b < a <= q * b
  {
    var f := (-a) / b;
    assert -a == f * b + (-a) % b;
    -f
  }

  /**
   * `relativedelta(a, b)` in months: for a later than b, the largest
   * number of whole months that can be added to b without passing a.
   */
  function MonthsBetween(a: Moment, b: Moment): (m: int)
    requires ValidM(a) && ValidM(b)
    ensures Key(b) < Key(a) ==> m >= 0 && Key(AddMonthsM(b, m)) <= Key(a) < Key(AddMonthsM(b, m + 1))
  {
    var m0 := MonthIndex(a.date) - MonthIndex(b.date);
    var c := AddMonthsM(b, m0);
    if Key(a) < Key(c) then
      MonthsBetweenBelow(a, b, m0);
      m0 - 1
    else
      MonthsBetweenAt(a, b, m0);
      m0
  }

  lemma MonthsBetweenBelow(a: Moment, b: Moment, m0: int)
    requires ValidM(a) && ValidM(b)
    requires m0 == MonthIndex(a.date) - MonthIndex(b.date) && Key(a) < Key(AddMonthsM(b, m0))
    ensures Key(b) < Key(a) ==> m0 - 1 >= 0 && Key(AddMonthsM(b, m0 - 1)) <= Key(a) < Key(AddMonthsM(b, m0 - 1 + 1))
  {
    if Key(b) < Key(a) {
      if m0 <= 0 {
        if m0 < 0 {
          MonthKeyOrder(a, b);
        } else {
          AddMonthsZero(b.date);
        }
      }
      MonthKeyOrder(AddMonthsM(b, m0 - 1), a);
    }
  }

  lemma MonthsBetweenAt(a: Moment, b: Moment, m0: int)
    requires ValidM(a) && ValidM(b)
    requires m0 == MonthIndex(a.date) - MonthIndex(b.date) && Key(AddMonthsM(b, m0)) <= Key(a)
    ensures Key(b) < Key(a) ==> m0 >= 0 && Key(a) < Key(AddMonthsM(b, m0 + 1))
  {
    if Key(b) < Key(a) {
      if m0 < 0 {
        MonthKeyOrder(a, b);
      }
      MonthKeyOrder(a, AddMonthsM(b, m0 + 1));
    }
  }

  /** A moment in an earlier month is an earlier moment. */
  lemma MonthKeyOrder(x: Moment, y: Moment)
    requires ValidM(x) && ValidM(y) && MonthIndex(x.date) < MonthIndex(y.date)
    ensures Key(x) < Key(y)
  {
    MonthIndexOrder(x.date, y.date);
  }

  // ---------------------------------------------------------------------
  // RepeatInfo set-up

  /** What `RepeatInfo.__init__` computes before jumping into the range. */
  datatype Setup = Setup(form: Form, base: Moment, timed: bool, subday: bool,
                         exdates: Option<set<Moment>>, stopExc: Moment)

  predicate SetupOk(s: Setup) {
    ValidM(s.base) && FormOk(s.form, s.base) && ValidM(s.stopExc) && s.base.TimeM? == s.timed
    && (s.subday ==> s.timed)
    && (s.exdates.Some? ==> forall e :: e in s.exdates.value ==> ValidM(e))
  }

  predicate Excluded(s: Setup, m: Moment) {
    IsExdate(s.exdates, s.timed, s.subday, m)
  }

  /** The range start as the repeat compares it: midnight for a timed repeat. */
  function RangeStart(timed: bool, start: Date): (r: Moment)
    requires Valid(start)
    ensures ValidM(r) && r.TimeM? == timed && Key(r) == Ordinal(start) * DayUs
  {
    if timed then TimeM(start, 0) else DateM(start)
  }

  /**
   * `RepeatInfo.__init__` without the jump: Ok(None) when the quick checks
   * show the range holds no repeat, otherwise the shape of the delta, the
   * excluded moments and the exclusive stop; or the error it raises.
   */
  function Prepare(props: map<string, Value>, start: Date, stop: Date): (res: Result<Option<Setup>, RepeatError>)
    requires HasStart(props) && "RRULE" in props && WellTyped(props) && Valid(start) && Valid(stop)
    ensures res.Ok? && res.value.Some? ==> var s := res.value.value;
      SetupOk(s) && Occ(s.form, s.base, 0) == s.base && Key(s.base) == Key(StartOf(props))
      && s.timed == (IsSubday(props["RRULE"].rule.freq) || StartOf(props).TimeM?)
      && (s.exdates.Some? <==> "EXDATE" in props)
  {
    var rule := props["RRULE"].rule;
    var dtstart := StartOf(props);
    var subday := IsSubday(rule.freq);
    var timed := subday || dtstart.TimeM?;
    var base := if timed then DateToDatetime(dtstart) else dtstart;
    var startM := RangeStart(timed, start);
    var stopM := RangeStart(timed, stop);
    if props["DTSTART"].tzid then Err(Unsupported)
    else if Key(stopM) <= Key(base) then Ok(None)
    else if rule.until.Some? && Key(rule.until.value) < Key(startM) then Ok(None)
    else
      match FreqForm(rule, base)
      case Err(e) => Err(e)
      case Ok(form) =>
        var ex := if "EXDATE" in props then Some(ExdateSet(props["EXDATE"].lists)) else None;
        match SetStop(form, base, timed, rule.until, Some(stopM), rule.count, ex.Some?)
        case Err(e) => Err(e)
        case Ok(stopExc) => Ok(Some(Setup(form, base, timed, subday, ex, stopExc)))
  }

  /** A DTSTART with a time zone is left to the general rule expander. */
  lemma PrepareTzid(props: map<string, Value>, start: Date, stop: Date)
    requires HasStart(props) && "RRULE" in props && WellTyped(props) && Valid(start) && Valid(stop)
    requires props["DTSTART"].tzid
    ensures Prepare(props, start, stop) == Err(Unsupported)
  {
  }

  /** With the stop date always given, the "no bound" error cannot arise. */
  lemma PrepareBounded(props: map<string, Value>, start: Date, stop: Date)
    requires HasStart(props) && "RRULE" in props && WellTyped(props) && Valid(start) && Valid(stop)
    ensures Prepare(props, start, stop) != Err(Unbounded)
  {
    var rule := props["RRULE"].rule;
    var dtstart := StartOf(props);
    var timed := IsSubday(rule.freq) || dtstart.TimeM?;
    var base := if timed then DateToDatetime(dtstart) else dtstart;
    var stopM := RangeStart(timed, stop);
    FreqFormAccepts(rule, base);
    match FreqForm(rule, base)
    case Err(_) =>
    case Ok(form) =>
      var hasEx := "EXDATE" in props;
      assert SetStop(form, base, timed, rule.until, Some(stopM), rule.count, hasEx) != Err(Unbounded);
  }

  /**
   * There is nothing to expand exactly when the range stops before DTSTART
   * or the rule's UNTIL is before the range starts.
   */
  lemma PrepareEmpty(props: map<string, Value>, start: Date, stop: Date)
    requires HasStart(props) && "RRULE" in props && WellTyped(props) && Valid(start) && Valid(stop)
    ensures Prepare(props, start, stop) == Ok(None) <==>
      !props["DTSTART"].tzid &&
      (Ordinal(stop) * DayUs <= Key(StartOf(props))
       || (props["RRULE"].rule.until.Some? && Key(props["RRULE"].rule.until.value) < Ordinal(start) * DayUs))
  {
  }
}
