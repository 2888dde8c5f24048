/**
 * `RepeatInfo` and its iterators: the jump from DTSTART to the first
 * repeat in a range, the `+= delta` walk up to the exclusive stop with
 * EXDATE moments skipped, and `repeats_in_range`.
 */
module RecurIter {
  import opened Wrappers
  import opened Dates
  import opened Entries
  import opened RecurRule

  /** The position in the list of deltas that goes with candidate k (`delta_index`). */
  function DeltaIdx(f: Form, k: int): (i: int)
    requires f.Cycle? ==> |f.days| >= 1
    ensures f.Cycle? ==> 0 <= i < |f.days|
    ensures !f.Cycle? ==> i == 0
  {
    if f.Cycle? then k % |f.days| else 0
  }

  /** `i = (i + 1) % len(delta)` keeps the position in step with the candidate. */
  lemma DeltaIdxNext(f: Form, k: int)
    requires f.Cycle? ==> |f.days| >= 1
    ensures f.Cycle? ==> DeltaIdx(f, k + 1) == (DeltaIdx(f, k) + 1) % |f.days|
    ensures f.Cycle? ==> DeltaIdx(f, k) % |f.days| == DeltaIdx(f, k)
  {
    if f.Cycle? {
      var l := |f.days|;
      var q := k / l;
      var m := k % l;
      DivModUnique(m, l, 0, m);
      if m + 1 < l {
        DivModUnique(k + 1, l, q, m + 1);
        DivModUnique(m + 1, l, 0, m + 1);
      } else {
        DivModUnique(k + 1, l, q + 1, 0);
        DivModUnique(m + 1, l, 1, 0);
      }
    }
  }

  /** The candidate a reference position stands for (`firstday_to_byweekdayinmonth` for ByWeekday). */
  function OccAt(f: Form, p: Moment): (r: Moment)
    requires ValidM(p)
    requires f.ByWeekday? ==> p.date.day == 1 && 1 <= Abs(f.idx) <= 4 && 0 <= f.wday < 7
    ensures ValidM(r)
  {
    if f.ByWeekday? then FirstdayToM(p, f.idx, f.wday) else p
  }

  // ---------------------------------------------------------------------
  // Finitely many exceptions

  ghost function MaxKey(ex: set<Moment>): (r: int)
    requires forall e :: e in ex ==> ValidM(e)
    ensures forall e :: e in ex ==> Key(e) <= r
    decreases ex
  {
    if ex == {} then 0
    else
      var e :| e in ex;
      var r := MaxKey(ex - {e});
      if Key(e) > r then Key(e) else r
  }

  /** A key from which on nothing is excluded. */
  ghost function ExHorizon(s: Setup): int
    requires SetupOk(s)
  {
    if s.exdates.Some? then MaxKey(s.exdates.value) + DayUs else 0
  }

  lemma PastExHorizon(s: Setup, m: Moment)
    requires SetupOk(s) && ValidM(m) && Key(m) >= ExHorizon(s)
    ensures !Excluded(s, m)
  {
    if s.exdates.Some? && m.TimeM? {
      assert ValidM(DateM(m.date));
    }
  }

  // ---------------------------------------------------------------------
  // The first repeat in the range

  /** Every candidate before index k lies before the range start or is excluded. */
  ghost predicate SkippedBefore(s: Setup, start: Moment, k: int)
    requires SetupOk(s) && ValidM(start)
  {
    forall j :: 0 <= j < k ==> Key(Occ(s.form, s.base, j)) < Key(start) || Excluded(s, Occ(s.form, s.base, j))
  }

  /** Candidate k is the first one at or after the range start that is not excluded. */
  ghost predicate FirstIn(s: Setup, start: Moment, k: int)
    requires SetupOk(s) && ValidM(start)
  {
    k >= 0 && Key(start) <= Key(Occ(s.form, s.base, k)) && !Excluded(s, Occ(s.form, s.base, k))
    && SkippedBefore(s, start, k)
  }

  /** Candidates below index k all come before candidate k - 1 does, or are it. */
  lemma BeforeLast(s: Setup, start: Moment, k: int)
    requires SetupOk(s) && ValidM(start) && k >= 1
    requires Key(Occ(s.form, s.base, k - 1)) < Key(start)
    ensures forall j :: 0 <= j < k ==> Key(Occ(s.form, s.base, j)) < Key(start)
  {
    UpTo(s, start, k - 1);
  }

  /** Candidates below index k come before candidate k, so before anything it does not pass. */
  lemma UpTo(s: Setup, start: Moment, k: int)
    requires SetupOk(s) && ValidM(start) && Key(Occ(s.form, s.base, k)) <= Key(start)
    ensures forall j :: 0 <= j < k ==> Key(Occ(s.form, s.base, j)) < Key(start)
  {
    forall j | 0 <= j < k ensures Key(Occ(s.form, s.base, j)) < Key(start) {
      OccMono(s.form, s.base, j, k);
    }
  }

  lemma CeilDivNonNeg(a: int, b: int)
    requires a >= 0 && b >= 1
    ensures CeilDiv(a, b) >= 0
  {
    var k := CeilDiv(a, b);
    if k < 0 {
      MulNonNeg(-k, b);
    }
  }

  lemma FloorDiv(d: int, per: int)
    requires d >= 0 && per >= 1
    ensures d / per >= 0 && (d / per) * per <= d
  {
    var q := d / per;
    assert d == q * per + d % per;
    if q < 0 {
      MulNonNeg(-q, per);
    }
  }

  lemma StepBefore(s: Setup, start: Moment, d: int, k: int)
    requires SetupOk(s) && ValidM(start) && s.form.Step?
    requires d == Key(start) - Key(s.base) && d > 0 && k == CeilDiv(d, s.form.us)
    ensures k >= 0
    ensures forall j :: 0 <= j < k ==> Key(Occ(s.form, s.base, j)) < Key(start)
  {
    var us := s.form.us;
    CeilDivNonNeg(d, us);
    if k >= 1 {
      if s.base.DateM? {
        StepWholeDays(k - 1, us);
      }
      BeforeLast(s, start, k);
    }
  }

  lemma MonthBefore(s: Setup, start: Moment, m: int, k: int)
    requires SetupOk(s) && ValidM(start) && s.form.MonthStep?
    requires m >= 0 && Key(AddMonthsM(s.base, m)) <= Key(start) && k == CeilDiv(m, s.form.n)
    ensures k >= 0
    ensures forall j :: 0 <= j < k ==> Key(Occ(s.form, s.base, j)) < Key(start)
  {
    CeilDivNonNeg(m, s.form.n);
    if k >= 1 {
      MonthKeyOrder(Pos(s.form, s.base, k - 1), AddMonthsM(s.base, m));
      BeforeLast(s, start, k);
    }
  }

  /**
   * `_do_initial_jump` for a single delta: the jump of ceil(distance /
   * delta) steps from DTSTART passes only candidates before the range start.
   */
  method SingleJump(s: Setup, start: Moment) returns (k: int, p: Moment)
    requires SetupOk(s) && ValidM(start) && (s.form.Step? || s.form.MonthStep?)
    ensures k >= 0 && p == Pos(s.form, s.base, k)
    ensures forall j :: 0 <= j < k ==> Key(Occ(s.form, s.base, j)) < Key(start)
  {
    k := 0;
    p := s.base;
    if s.form.MonthStep? {
      AddMonthsZero(s.base.date);
    }
    var d := Key(start) - Key(s.base);
    if d > 0 {
      match s.form
      case Step(us) =>
        k := CeilDiv(d, us);
        StepBefore(s, start, d, k);
        p := AddUs(s.base, us * k);
      case MonthStep(n) =>
        var m := MonthsBetween(start, s.base);
        k := CeilDiv(m, n);
        MonthBefore(s, start, m, k);
        p := AddMonthsM(s.base, n * k);
    }
  }

  lemma SumPositive(days: seq<int>)
    requires |days| >= 1 && forall j :: 0 <= j < |days| ==> days[j] >= 1
    ensures Sum(days) >= 1
  {
    if |days| > 1 {
      SumPositive(days[..|days| - 1]);
    }
  }

  lemma CycleWhole(s: Setup, q: int)
    requires SetupOk(s) && s.form.Cycle?
    ensures var l := |s.form.days|;
      (q * l) % l == 0
      && Pos(s.form, s.base, q * l) == AddUs(s.base, (Sum(s.form.days) * DayUs) * q)
      && Key(Pos(s.form, s.base, q * l)) == Key(s.base) + (q * Sum(s.form.days)) * DayUs
  {
    var days := s.form.days;
    var l := |days|;
    DivModUnique(q * l, l, q, 0);
    assert days[..0] == [];
    assert CycleDays(days, q * l) == q * Sum(days);
    assert (Sum(days) * DayUs) * q == (q * Sum(days)) * DayUs;
    AddUsDays(s.base, q * Sum(days));
  }

  /**
   * The jump of `_set_start_in_rng` for a list of deltas: whole cycles,
   * as many as fit between DTSTART and the range start.
   */
  method CycleJump(s: Setup, start: Moment) returns (k: int, p: Moment)
    requires SetupOk(s) && ValidM(start) && s.form.Cycle?
    ensures k >= 0 && p == Pos(s.form, s.base, k) && DeltaIdx(s.form, k) == 0
    ensures forall j :: 0 <= j < k ==> Key(Occ(s.form, s.base, j)) < Key(start)
  {
    var days := s.form.days;
    CycleWhole(s, 0);
    k := 0;
    p := s.base;
    var d := Key(start) - Key(s.base);
    if d > 0 {
      SumPositive(days);
      var per := Sum(days) * DayUs;
      var q := d / per;
      k, p := q * |days|, AddUs(s.base, per * q);
      CycleJumpBefore(s, start, d, q);
    }
  }

  lemma CycleJumpBefore(s: Setup, start: Moment, d: int, q: int)
    requires SetupOk(s) && ValidM(start) && s.form.Cycle?
    requires d == Key(start) - Key(s.base) && d > 0 && Sum(s.form.days) >= 1
    requires q == d / (Sum(s.form.days) * DayUs)
    ensures q * |s.form.days| >= 0 && DeltaIdx(s.form, q * |s.form.days|) == 0
    ensures Pos(s.form, s.base, q * |s.form.days|) == AddUs(s.base, (Sum(s.form.days) * DayUs) * q)
    ensures forall j :: 0 <= j < q * |s.form.days| ==> Key(Occ(s.form, s.base, j)) < Key(start)
  {
    var sum := Sum(s.form.days);
    var per := sum * DayUs;
    var k := q * |s.form.days|;
    FloorDiv(d, per);
    MulNonNeg(q, |s.form.days|);
    CycleWhole(s, q);
    MulAssocDay(q, sum);
    assert Key(Occ(s.form, s.base, k)) <= Key(start);
    UpTo(s, start, k);
  }

  lemma MulAssocDay(q: int, sum: int)
    ensures (q * sum) * DayUs == q * (sum * DayUs)
  {
  }

  /** One more skipped candidate: the one at index k, and everything after it is no earlier. */
  lemma SkippedStep(s: Setup, start: Moment, k: int)
    requires SetupOk(s) && ValidM(start) && SkippedBefore(s, start, k)
    requires Key(Occ(s.form, s.base, k)) < Key(start) || Excluded(s, Occ(s.form, s.base, k))
    ensures SkippedBefore(s, start, k + 1)
    ensures Key(Occ(s.form, s.base, k)) < Key(Occ(s.form, s.base, k + 1))
  {
    OccGap(s.form, s.base, k);
  }

  lemma BelowHorizon(s: Setup, start: Moment, m: Moment, h: int)
    requires SetupOk(s) && ValidM(start) && ValidM(m)
    requires h == (if Key(start) > ExHorizon(s) then Key(start) else ExHorizon(s))
    requires Key(m) < Key(start) || Excluded(s, m)
    ensures Key(m) < h
  {
    if Key(m) >= h {
      PastExHorizon(s, m);
    }
  }

  /**
   * The loop of `_set_start_in_rng` after the jump: step on while the
   * candidate lies before the range start or is excluded.
   */
  method SkipToFirst(s: Setup, start: Moment, k0: int, p0: Moment) returns (p: Moment, i: int, ghost k: int)
    requires SetupOk(s) && ValidM(start) && !s.form.ByWeekday?
    requires k0 >= 0 && p0 == Pos(s.form, s.base, k0) && DeltaIdx(s.form, k0) == 0
    requires forall j :: 0 <= j < k0 ==> Key(Occ(s.form, s.base, j)) < Key(start)
    ensures k >= k0 && p == Pos(s.form, s.base, k) && i == DeltaIdx(s.form, k) && FirstIn(s, start, k)
  {
    p, i, k := p0, 0, k0;
    ghost var h := if Key(start) > ExHorizon(s) then Key(start) else ExHorizon(s);
    OccAtPos(s, k, p);
    while Key(p) < Key(start) || Excluded(s, p)
      invariant k >= k0 && p == Pos(s.form, s.base, k) && i == DeltaIdx(s.form, k)
      invariant p == Occ(s.form, s.base, k)
      invariant SkippedBefore(s, start, k)
      decreases h - Key(p)
    {
      BelowHorizon(s, start, p, h);
      SkippedStep(s, start, k);
      p, i := AdvanceOne(s, p, i, k);
      k := k + 1;
      OccAtPos(s, k, p);
    }
  }

  lemma ByWeekdayBefore(s: Setup, start: Moment, m: int, k: int)
    requires SetupOk(s) && ValidM(start) && s.form.ByWeekday?
    requires m >= 0 && Key(AddMonthsM(FirstOfMonthM(s.base), m)) <= Key(FirstOfMonthM(start))
    requires k == CeilDiv(m, s.form.n)
    ensures k >= 0
    ensures forall j :: 0 <= j < k ==> Key(Occ(s.form, s.base, j)) < Key(start)
  {
    var jumped := AddMonthsM(FirstOfMonthM(s.base), m);
    if MonthIndex(FirstOfMonthM(start).date) < MonthIndex(jumped.date) {
      MonthKeyOrder(FirstOfMonthM(start), jumped);
    }
    CeilDivNonNeg(m, s.form.n);
    if k >= 1 {
      MonthKeyOrder(Occ(s.form, s.base, k - 1), start);
      BeforeLast(s, start, k);
    }
  }

  /** The `_do_initial_jump` of `_set_start_in_rng_byweekdayinmonth`, between firsts of months. */
  method ByWeekdayJump(s: Setup, start: Moment) returns (k: int, p: Moment)
    requires SetupOk(s) && ValidM(start) && s.form.ByWeekday?
    ensures k >= 0 && p == Pos(s.form, s.base, k)
    ensures forall j :: 0 <= j < k ==> Key(Occ(s.form, s.base, j)) < Key(start)
  {
    var target := FirstOfMonthM(start);
    p := FirstOfMonthM(s.base);
    AddMonthsZero(p.date);
    k := 0;
    if Key(target) > Key(p) {
      var m := MonthsBetween(target, p);
      k := CeilDiv(m, s.form.n);
      ByWeekdayBefore(s, start, m, k);
      p := AddMonthsM(p, k * s.form.n);
    }
  }

  /**
   * `_set_start_in_rng_byweekdayinmonth`: jump by whole months towards the
   * range start, step on while the chosen day is before it, then while
   * it is excluded.
   */
  method ByWeekdayFirst(s: Setup, start: Moment) returns (p: Moment, ghost k: int)
    requires SetupOk(s) && ValidM(start) && s.form.ByWeekday?
    ensures k >= 0 && p == Pos(s.form, s.base, k) && FirstIn(s, start, k)
  {
    var k0, p0 := ByWeekdayJump(s, start);
    var p1, k1 := SkipEarlyMonths(s, start, k0, p0);
    MonthWalkStart(s, start, k1, p1);
    p, k := SkipExcludedMonths(s, start, k1, p1);
  }

  /** The first loop: months whose chosen day is before the range start. */
  method SkipEarlyMonths(s: Setup, start: Moment, ghost k0: int, p0: Moment) returns (p: Moment, ghost k: int)
    requires SetupOk(s) && ValidM(start) && s.form.ByWeekday?
    requires k0 >= 0 && p0 == Pos(s.form, s.base, k0)
    requires forall j :: 0 <= j < k0 ==> Key(Occ(s.form, s.base, j)) < Key(start)
    ensures k >= k0 && p == Pos(s.form, s.base, k) && Key(start) <= Key(Occ(s.form, s.base, k))
    ensures forall j :: 0 <= j < k ==> Key(Occ(s.form, s.base, j)) < Key(start)
  {
    p, k := p0, k0;
    while Key(FirstdayToM(p, s.form.idx, s.form.wday)) < Key(start)
      invariant k >= k0 && p == Pos(s.form, s.base, k)
      invariant forall j :: 0 <= j < k ==> Key(Occ(s.form, s.base, j)) < Key(start)
      decreases Key(start) - Key(FirstdayToM(p, s.form.idx, s.form.wday))
    {
      PosNext(s.form, s.base, k);
      OccGap(s.form, s.base, k);
      p := AddMonthsM(p, s.form.n);
      k := k + 1;
    }
  }

  /** The second loop: months whose chosen day is excluded. */
  method SkipExcludedMonths(s: Setup, start: Moment, ghost k0: int, p0: Moment) returns (p: Moment, ghost k: int)
    requires SetupOk(s) && ValidM(start) && s.form.ByWeekday? && MonthWalk(s, start, k0, p0)
    ensures k >= k0 && p == Pos(s.form, s.base, k) && FirstIn(s, start, k)
  {
    p, k := p0, k0;
    ghost var h := if Key(start) > ExHorizon(s) then Key(start) else ExHorizon(s);
    while Excluded(s, FirstdayToM(p, s.form.idx, s.form.wday))
      invariant k >= k0 && MonthWalk(s, start, k, p)
      decreases h - Key(Occ(s.form, s.base, k))
    {
      ExcludedMonthStep(s, start, k, p, h);
      p := AddMonthsM(p, s.form.n);
      k := k + 1;
    }
    MonthWalkDone(s, start, k, p);
  }

  /** The state of the second loop: p is the month of candidate k, and every earlier candidate was skipped. */
  ghost predicate MonthWalk(s: Setup, start: Moment, k: int, p: Moment)
    requires SetupOk(s) && ValidM(start) && s.form.ByWeekday?
  {
    k >= 0 && p == Pos(s.form, s.base, k)
    && ValidM(p) && p.date.day == 1 && 1 <= Abs(s.form.idx) <= 4 && 0 <= s.form.wday < 7
    && FirstdayToM(p, s.form.idx, s.form.wday) == Occ(s.form, s.base, k)
    && Key(start) <= Key(Occ(s.form, s.base, k)) && SkippedBefore(s, start, k)
  }

  lemma MonthWalkStart(s: Setup, start: Moment, k: int, p: Moment)
    requires SetupOk(s) && ValidM(start) && s.form.ByWeekday?
    requires k >= 0 && p == Pos(s.form, s.base, k) && Key(start) <= Key(Occ(s.form, s.base, k))
    requires forall j :: 0 <= j < k ==> Key(Occ(s.form, s.base, j)) < Key(start)
    ensures MonthWalk(s, start, k, p)
  {
    OccAtPos(s, k, p);
  }

  lemma MonthWalkDone(s: Setup, start: Moment, k: int, p: Moment)
    requires SetupOk(s) && ValidM(start) && s.form.ByWeekday? && MonthWalk(s, start, k, p)
    requires !Excluded(s, FirstdayToM(p, s.form.idx, s.form.wday))
    ensures p == Pos(s.form, s.base, k) && FirstIn(s, start, k)
  {
  }

  /** One turn of the second loop: an excluded month is skipped, and the walk moves on by n months. */
  lemma ExcludedMonthStep(s: Setup, start: Moment, k: int, p: Moment, h: int)
    requires SetupOk(s) && ValidM(start) && s.form.ByWeekday? && MonthWalk(s, start, k, p)
    requires Excluded(s, FirstdayToM(p, s.form.idx, s.form.wday))
    requires h == (if Key(start) > ExHorizon(s) then Key(start) else ExHorizon(s))
    ensures Key(Occ(s.form, s.base, k)) < h && Key(Occ(s.form, s.base, k)) < Key(Occ(s.form, s.base, k + 1))
    ensures MonthWalk(s, start, k + 1, AddMonthsM(p, s.form.n))
  {
    BelowHorizon(s, start, Occ(s.form, s.base, k), h);
    SkippedStep(s, start, k);
    PosNext(s.form, s.base, k);
    OccAtPos(s, k + 1, AddMonthsM(p, s.form.n));
  }

  // ---------------------------------------------------------------------
  // RepeatInfo

  /**
   * `RepeatInfo`: the repeat's set-up (None when the quick checks found the
   * range empty), the range start, and where the walk begins: the first
   * candidate in the range that is not excluded (for ByWeekday, the first
   * of its month), with the matching position in the list of deltas.
   */
  class RepeatInfo {
    const setup: Option<Setup>
    const rangeStart: Moment
    const startInRng: Option<Moment>
    const deltaIndex: int
    /** Index of the candidate the walk begins with. */
    ghost const first: int

    ghost predicate Valid() {
      ValidM(rangeStart)
      && (setup.Some? <==> startInRng.Some?)
      && (setup.Some? ==>
            SetupOk(setup.value) && FirstIn(setup.value, rangeStart, first)
            && startInRng.value == Pos(setup.value.form, setup.value.base, first)
            && deltaIndex == DeltaIdx(setup.value.form, first))
    }

    /** The jump into the range done by `_set_start_in_rng` or `_set_start_in_rng_byweekdayinmonth`. */
    constructor (s: Option<Setup>, start: Moment)
      requires ValidM(start) && (s.Some? ==> SetupOk(s.value))
      ensures setup == s && rangeStart == start && Valid()
    {
      setup := s;
      rangeStart := start;
      if s.None? {
        startInRng, deltaIndex, first := None, 0, 0;
      } else if s.value.form.ByWeekday? {
        var p, k := ByWeekdayFirst(s.value, start);
        startInRng, deltaIndex, first := Some(p), 0, k;
      } else {
        var k0, p0;
        if s.value.form.Cycle? {
          k0, p0 := CycleJump(s.value, start);
        } else {
          k0, p0 := SingleJump(s.value, start);
        }
        var p, i, k := SkipToFirst(s.value, start, k0, p0);
        startInRng, deltaIndex, first := Some(p), i, k;
      }
    }
  }

  // ---------------------------------------------------------------------
  // What the iterators produce

  /** The candidates from index k up to the exclusive stop that are not excluded, in order. */
  ghost function Remaining(s: Setup, k: int): seq<Moment>
    requires SetupOk(s)
    decreases Key(s.stopExc) - Key(Occ(s.form, s.base, k))
  {
    var m := Occ(s.form, s.base, k);
    if Key(s.stopExc) <= Key(m) then []
    else
      OccGap(s.form, s.base, k);
      (if Excluded(s, m) then [] else [m]) + Remaining(s, k + 1)
  }

  /** Dates and datetimes in strictly increasing order. */
  ghost predicate Increasing(xs: seq<Moment>) {
    (forall a :: 0 <= a < |xs| ==> ValidM(xs[a]))
    && forall a, b :: 0 <= a < b < |xs| ==> Key(xs[a]) < Key(xs[b])
  }

  /** m is a repeat of the entry in the range: a candidate at or after the start, before the stop, not excluded. */
  ghost predicate Kept(s: Setup, start: Moment, m: Moment)
    requires SetupOk(s) && ValidM(start)
  {
    exists j :: j >= 0 && m == Occ(s.form, s.base, j)
      && Key(start) <= Key(m) < Key(s.stopExc) && !Excluded(s, m)
  }

  /** Remaining(s, k) holds exactly the kept candidates from index k on, each no earlier than candidate k. */
  lemma {:induction false} RemainingMembers(s: Setup, k: int)
    requires SetupOk(s)
    ensures forall m :: m in Remaining(s, k) <==>
      exists j :: j >= k && m == Occ(s.form, s.base, j) && Key(m) < Key(s.stopExc) && !Excluded(s, m)
    decreases Key(s.stopExc) - Key(Occ(s.form, s.base, k))
  {
    var m0 := Occ(s.form, s.base, k);
    if Key(s.stopExc) <= Key(m0) {
      forall j | j >= k ensures Key(s.stopExc) <= Key(Occ(s.form, s.base, j)) {
        if j > k {
          OccMono(s.form, s.base, k, j);
        }
      }
    } else {
      OccGap(s.form, s.base, k);
      RemainingMembers(s, k + 1);
      forall m | m in Remaining(s, k)
        ensures exists j :: j >= k && m == Occ(s.form, s.base, j) && Key(m) < Key(s.stopExc) && !Excluded(s, m)
      {
        if m !in Remaining(s, k + 1) {
          assert m == m0;
        }
      }
      forall m, j | j >= k && m == Occ(s.form, s.base, j) && Key(m) < Key(s.stopExc) && !Excluded(s, m)
        ensures m in Remaining(s, k)
      {
        if j > k {
          assert m in Remaining(s, k + 1);
        }
      }
    }
  }

  lemma {:induction false} RemainingIncreasing(s: Setup, k: int)
    requires SetupOk(s)
    ensures Increasing(Remaining(s, k))
    decreases Key(s.stopExc) - Key(Occ(s.form, s.base, k))
  {
    var m0 := Occ(s.form, s.base, k);
    if Key(m0) < Key(s.stopExc) {
      OccGap(s.form, s.base, k);
      RemainingIncreasing(s, k + 1);
      RemainingFloor(s, k + 1);
      RemainingSkip(s, k);
      if !Excluded(s, m0) {
        ConsIncreasing(m0, Remaining(s, k + 1));
      }
    }
  }

  /** Every repeat from index k on is at or after candidate k. */
  lemma {:induction false} RemainingFloor(s: Setup, k: int)
    requires SetupOk(s)
    ensures forall m :: m in Remaining(s, k) ==> ValidM(m) && Key(Occ(s.form, s.base, k)) <= Key(m)
    decreases Key(s.stopExc) - Key(Occ(s.form, s.base, k))
  {
    if Key(Occ(s.form, s.base, k)) < Key(s.stopExc) {
      OccGap(s.form, s.base, k);
      RemainingFloor(s, k + 1);
      RemainingSkip(s, k);
    }
  }

  /** A moment before everything in an increasing list extends it. */
  lemma ConsIncreasing(m0: Moment, rest: seq<Moment>)
    requires ValidM(m0) && Increasing(rest) && forall m :: m in rest ==> Key(m0) < Key(m)
    ensures Increasing([m0] + rest)
  {
    var xs := [m0] + rest;
    forall a, b | 0 <= a < b < |xs| ensures Key(xs[a]) < Key(xs[b]) {
      if a == 0 {
        assert xs[b] in rest;
      } else {
        assert xs[a] == rest[a - 1] && xs[b] == rest[b - 1];
      }
    }
  }

  /** From the first candidate in the range on, what remains is exactly the repeats in the range. */
  lemma FirstRemaining(s: Setup, start: Moment, k: int)
    requires SetupOk(s) && ValidM(start) && FirstIn(s, start, k)
    ensures Increasing(Remaining(s, k))
    ensures forall m :: m in Remaining(s, k) <==> Kept(s, start, m)
  {
    RemainingIncreasing(s, k);
    RemainingMembers(s, k);
    RemainingFloor(s, k);
    forall m | Kept(s, start, m) ensures m in Remaining(s, k) {
      var j :| j >= 0 && m == Occ(s.form, s.base, j)
        && Key(start) <= Key(m) < Key(s.stopExc) && !Excluded(s, m);
    }
    forall m | m in Remaining(s, k) ensures Kept(s, start, m) {
      var j :| j >= k && m == Occ(s.form, s.base, j) && Key(m) < Key(s.stopExc) && !Excluded(s, m);
      assert Key(start) <= Key(Occ(s.form, s.base, k)) <= Key(m);
    }
  }

  /** The next candidate after k that is kept, once candidate k itself is dropped or taken. */
  lemma RemainingSkip(s: Setup, k: int)
    requires SetupOk(s) && Key(Occ(s.form, s.base, k)) < Key(s.stopExc)
    ensures Excluded(s, Occ(s.form, s.base, k)) ==> Remaining(s, k) == Remaining(s, k + 1)
    ensures !Excluded(s, Occ(s.form, s.base, k)) ==> Remaining(s, k) == [Occ(s.form, s.base, k)] + Remaining(s, k + 1)
  {
  }

  // ---------------------------------------------------------------------
  // The iterators

  /**
   * `RepeatIter_simpledelta`, `RepeatIter_multidelta` and
   * `RepeatIter_byweekdayinmonth` in one: the reference position (`dt`, or
   * `dt_ref` for ByWeekday) and the position in the list of deltas.
   */
  class RepeatIter {
    const info: RepeatInfo
    var dt: Option<Moment>
    var i: int
    /** Index of the candidate `dt` stands for. */
    ghost var k: int

    ghost predicate Valid()
      reads this
    {
      (info.setup.None? ==> dt.None?)
      && (info.setup.Some? ==>
            var s := info.setup.value;
            SetupOk(s) && dt.Some? && k >= 0 && dt.value == Pos(s.form, s.base, k) && i == DeltaIdx(s.form, k)
            && !Excluded(s, Occ(s.form, s.base, k)))
    }

    /** The repeats this iterator has still to produce. */
    ghost function Rest(): seq<Moment>
      reads this
      requires Valid()
    {
      if info.setup.None? then [] else Remaining(info.setup.value, k)
    }

    constructor (info: RepeatInfo)
      requires info.Valid()
      ensures this.info == info && Valid()
      ensures info.setup.Some? ==> Rest() == Remaining(info.setup.value, info.first)
    {
      this.info := info;
      dt := info.startInRng;
      i := info.deltaIndex;
      k := info.first;
    }

    /**
     * `__next__`: None (StopIteration) once the current repeat is at or
     * after the stop; otherwise the current repeat, after stepping to the
     * next one that is not excluded.
     */
    method Next() returns (r: Option<Moment>)
      requires Valid()
      modifies this
      ensures Valid()
      ensures r.None? ==> old(Rest()) == [] && Rest() == []
      ensures r.Some? ==> old(Rest()) == [r.value] + Rest()
    {
      if dt.None? {
        return None;
      }
      var s := info.setup.value;
      var cur := OccAt(s.form, dt.value);
      ghost var k0 := k;
      OccAtPos(s, k0, dt.value);
      if Key(s.stopExc) <= Key(cur) {
        RemainingEnd(s, k0);
        return None;
      }
      r := Some(cur);
      var p, j, k1 := StepPastExcluded(s, dt.value, i, k0);
      NextRemaining(s, k0, k1);
      dt, i, k := Some(p), j, k1;
    }
  }

  /** The candidate a reference position stands for is the candidate of its index. */
  lemma OccAtPos(s: Setup, k: int, p: Moment)
    requires SetupOk(s) && p == Pos(s.form, s.base, k)
    ensures OccAt(s.form, p) == Occ(s.form, s.base, k)
  {
  }

  /** Nothing remains from a candidate at or after the stop. */
  lemma RemainingEnd(s: Setup, k: int)
    requires SetupOk(s) && Key(s.stopExc) <= Key(Occ(s.form, s.base, k))
    ensures Remaining(s, k) == []
  {
  }

  /** A kept candidate k, then the excluded run up to k1: what remains is candidate k, then what remains from k1. */
  lemma NextRemaining(s: Setup, k: int, k1: int)
    requires SetupOk(s) && Key(Occ(s.form, s.base, k)) < Key(s.stopExc) && !Excluded(s, Occ(s.form, s.base, k))
    requires k < k1 && ExcludedBetween(s, k, k1)
    ensures Remaining(s, k) == [Occ(s.form, s.base, k)] + Remaining(s, k1)
  {
    RemainingSkip(s, k);
    ExcludedRun(s, k + 1, k1);
  }

  /** One `+= delta` (`+= delta[i]` with `i = (i+1) % len(delta)` for a list of deltas). */
  method AdvanceOne(s: Setup, p0: Moment, i0: int, ghost k0: int) returns (p: Moment, i: int)
    requires SetupOk(s) && p0 == Pos(s.form, s.base, k0) && i0 == DeltaIdx(s.form, k0)
    ensures p == Pos(s.form, s.base, k0 + 1) && i == DeltaIdx(s.form, k0 + 1)
    ensures Key(Occ(s.form, s.base, k0)) < Key(Occ(s.form, s.base, k0 + 1))
  {
    PosNext(s.form, s.base, k0);
    DeltaIdxNext(s.form, k0);
    OccGap(s.form, s.base, k0);
    p := Advance(s.form, p0, i0);
    i := i0;
    if s.form.Cycle? {
      i := (i0 + 1) % |s.form.days|;
    }
  }

  lemma BelowExHorizon(s: Setup, m: Moment)
    requires SetupOk(s) && ValidM(m) && Excluded(s, m)
    ensures Key(m) < ExHorizon(s)
  {
    if Key(m) >= ExHorizon(s) {
      PastExHorizon(s, m);
    }
  }

  /**
   * The `while True` loop of `__next__`: one `+= delta`, then more while the
   * candidate reached is excluded.
   */
  method StepPastExcluded(s: Setup, p0: Moment, i0: int, ghost k0: int) returns (p: Moment, i: int, ghost k: int)
    requires SetupOk(s) && p0 == Pos(s.form, s.base, k0) && i0 == DeltaIdx(s.form, k0)
    ensures k > k0 && p == Pos(s.form, s.base, k) && i == DeltaIdx(s.form, k)
    ensures !Excluded(s, Occ(s.form, s.base, k)) && ExcludedBetween(s, k0, k)
  {
    p, i := AdvanceOne(s, p0, i0, k0);
    k := k0 + 1;
    OccAtPos(s, k, p);
    while Excluded(s, OccAt(s.form, p))
      invariant k > k0 && p == Pos(s.form, s.base, k) && i == DeltaIdx(s.form, k)
      invariant OccAt(s.form, p) == Occ(s.form, s.base, k)
      invariant ExcludedBetween(s, k0, k)
      decreases ExHorizon(s) - Key(Occ(s.form, s.base, k))
    {
      p, i, k := AdvanceExcluded(s, p, i, k0, k);
    }
  }

  /** One turn of that loop: the candidate at k is excluded, so step on to k + 1. */
  method AdvanceExcluded(s: Setup, p0: Moment, i0: int, ghost k0: int, ghost k: int) returns (p: Moment, i: int, ghost k1: int)
    requires SetupOk(s) && k > k0 && p0 == Pos(s.form, s.base, k) && i0 == DeltaIdx(s.form, k)
    requires Excluded(s, Occ(s.form, s.base, k)) && ExcludedBetween(s, k0, k)
    ensures k1 == k + 1 && p == Pos(s.form, s.base, k1) && i == DeltaIdx(s.form, k1)
    ensures OccAt(s.form, p) == Occ(s.form, s.base, k1) && ExcludedBetween(s, k0, k1)
    ensures Key(Occ(s.form, s.base, k)) < Key(Occ(s.form, s.base, k1)) && Key(Occ(s.form, s.base, k)) < ExHorizon(s)
  {
    BelowExHorizon(s, Occ(s.form, s.base, k));
    ExcludedBetweenStep(s, k0, k);
    p, i := AdvanceOne(s, p0, i0, k);
    k1 := k + 1;
    OccAtPos(s, k1, p);
  }

  /** Every candidate strictly between a and b is excluded. */
  ghost predicate ExcludedBetween(s: Setup, a: int, b: int)
    requires SetupOk(s)
  {
    forall j :: a < j < b ==> Excluded(s, Occ(s.form, s.base, j))
  }

  lemma ExcludedBetweenStep(s: Setup, a: int, b: int)
    requires SetupOk(s) && ExcludedBetween(s, a, b) && Excluded(s, Occ(s.form, s.base, b))
    ensures ExcludedBetween(s, a, b + 1)
  {
  }

  /** A run of excluded candidates contributes nothing. */
  lemma {:induction false} ExcludedRun(s: Setup, a: int, b: int)
    requires SetupOk(s) && a <= b && forall j :: a <= j < b ==> Excluded(s, Occ(s.form, s.base, j))
    ensures Remaining(s, a) == Remaining(s, b)
    decreases b - a
  {
    if a < b {
      ExcludedSkip(s, a);
      ExcludedRun(s, a + 1, b);
      calc {
        Remaining(s, a);
        Remaining(s, a + 1);
        Remaining(s, b);
      }
    }
  }

  /** An excluded candidate contributes nothing, whether or not it is before the stop. */
  lemma ExcludedSkip(s: Setup, k: int)
    requires SetupOk(s) && Excluded(s, Occ(s.form, s.base, k))
    ensures Remaining(s, k) == Remaining(s, k + 1)
  {
    if Key(s.stopExc) <= Key(Occ(s.form, s.base, k)) {
      OccGap(s.form, s.base, k);
    }
  }

  // ---------------------------------------------------------------------
  // repeats_in_range

  /**
   * `repeats_in_range`: the repeats of a repeating entry from the start
   * date (inclusive) to the stop date (exclusive). A repeat that cannot
   * happen gives none; one this code does not handle falls back to the
   * general rule expander, whose answer is the parameter `fallback`.
   */
  method RepeatsInRange(props: map<string, Value>, start: Date, stop: Date, fallback: seq<Moment>)
    returns (res: Result<seq<Moment>, RepeatError>)
    requires HasStart(props) && "RRULE" in props && Valid(start) && Valid(stop)
    ensures Prepare(props, start, stop) == Err(Impossible) ==> res == Ok([])
    ensures Prepare(props, start, stop) == Err(Unsupported) ==> res == Ok(fallback)
    ensures Prepare(props, start, stop) == Err(ValueError) ==> res == Err(ValueError)
    ensures Prepare(props, start, stop) == Ok(None) ==> res == Ok([])
    ensures Prepare(props, start, stop).Ok? && Prepare(props, start, stop).value.Some? ==>
      var s := Prepare(props, start, stop).value.value;
      res.Ok? && Increasing(res.value)
      && forall m :: m in res.value <==> Kept(s, RangeStart(s.timed, start), m)
  {
    var prep := Prepare(props, start, stop);
    if prep.Err? {
      if prep.error == Impossible {
        res := Ok([]);
      } else if prep.error == Unsupported {
        res := Ok(fallback);
      } else {
        res := Err(prep.error);
      }
      return;
    }
    var rangeStart := if prep.value.Some? then RangeStart(prep.value.value.timed, start) else DateM(start);
    var info := new RepeatInfo(prep.value, rangeStart);
    var all := Collect(info);
    res := Ok(all);
    if prep.value.Some? {
      FirstRemaining(prep.value.value, rangeStart, info.first);
    }
  }

  /** `list(iter(r_info))`: everything the iterator produces. */
  method Collect(info: RepeatInfo) returns (all: seq<Moment>)
    requires info.Valid()
    ensures info.setup.None? ==> all == []
    ensures info.setup.Some? ==> all == Remaining(info.setup.value, info.first)
  {
    var it := new RepeatIter(info);
    all := [];
    ghost var total := it.Rest();
    while true
      invariant it.Valid() && it.info == info && total == all + it.Rest()
      decreases |it.Rest()|
    {
      ghost var before := it.Rest();
      var r := it.Next();
      if r.None? {
        assert all == total by { assert total == all + before && before == []; }
        break;
      }
      ghost var after := it.Rest();
      assert total == (all + [r.value]) + after by {
        assert total == all + before && before == [r.value] + after;
      }
      all := all + [r.value];
    }
  }
}
