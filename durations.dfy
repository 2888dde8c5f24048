/**
 * `parse_timedelta`: configuration durations written as number-unit pairs
 * ("1h30m", "2d", "45s"), read into microseconds.
 */
module Durations {
  import opened Wrappers
  import opened Dates
  import opened Text

  predicate IsUnit(c: char) {
    c == 'd' || c == 'h' || c == 'm' || c == 's'
  }

  /** `timedelta(days=n)`, `hours=n`, `minutes=n` or `seconds=n`, in microseconds. */
  function UnitsUs(n: int, c: char): int
    requires IsUnit(c)
  {
    if c == 'd' then n * DayUs else if c == 'h' then n * HourUs
    else if c == 'm' then n * MinuteUs else n * SecondUs
  }

  /** Index of the first unit letter of s, or |s| when there is none. */
  function FirstUnit(s: string): (j: nat)
    ensures j <= |s| && (j < |s| ==> IsUnit(s[j]))
    ensures forall k :: 0 <= k < j ==> !IsUnit(s[k])
  {
    if |s| == 0 || IsUnit(s[0]) then 0 else 1 + FirstUnit(s[1..])
  }

  /**
   * The duration (in microseconds) that a lower-cased configuration text
   * denotes: number-unit pairs added up; text with no further unit, or a
   * unit with no number before it, ends the sum.
   */
  function DurationOf(s: string): int
    decreases |s|
  {
    var j := FirstUnit(s);
    if j == |s| then 0
    else
      match PairUs(s[..j], s[j])
      case None => 0
      case Some(d) => d + DurationOf(s[j + 1..])
  }

  /** The value of one number-unit pair, or None when the text before the unit is not a number. */
  function PairUs(number: string, u: char): (r: Option<int>)
    requires IsUnit(u)
    ensures r.Some? <==> ParseInt(number).Some?
    ensures r.Some? ==> r.value == UnitsUs(ParseInt(number).value, u)
  {
    match ParseInt(number)
    case None => None
    case Some(n) => Some(UnitsUs(n, u))
  }

  /** `parse_timedelta`: the duration in microseconds, read case-insensitively. */
  method ParseTimedelta(text: string) returns (td: int)
    ensures td == DurationOf(Lower(text))
  {
    td := SumPairs(Lower(text));
  }

  /** The parsing loop over already lower-cased text. */
  method SumPairs(s: string) returns (td: int)
    ensures td == DurationOf(s)
  {
    td := 0;
    var rest := s;
    while |rest| > 0
      invariant td + DurationOf(rest) == DurationOf(s)
      decreases |rest|
    {
      var j := FindUnit(rest, 0);
      if j == |rest| {
        NoUnitRest(rest, 0);
        assert rest[0..] == rest;
        return;
      }
      var pair := NextPair(rest, j);
      if pair.None? {
        return;
      }
      td := td + pair.value;
      rest := rest[j + 1..];
    }
  }

  /** The index of the first unit letter at or after i, or |s|. */
  method FindUnit(s: string, i: int) returns (j: int)
    requires 0 <= i <= |s|
    ensures i <= j <= |s| && NoUnitIn(s, i, j) && (j < |s| ==> IsUnit(s[j]))
  {
    j := i;
    while j < |s| && !IsUnit(s[j])
      invariant i <= j <= |s| && NoUnitIn(s, i, j)
      decreases |s| - j
    {
      j := j + 1;
    }
  }

  /** No unit letter among s[lo..hi]. */
  predicate NoUnitIn(s: string, lo: int, hi: int)
    requires 0 <= lo <= hi <= |s|
  {
    forall k :: lo <= k < hi ==> !IsUnit(s[k])
  }

  /** One round of the parser over `rest`, whose first unit letter is at j. */
  method NextPair(rest: string, j: int) returns (pair: Option<int>)
    requires 0 <= j < |rest| && IsUnit(rest[j]) && NoUnitIn(rest, 0, j)
    ensures pair.None? ==> DurationOf(rest) == 0
    ensures pair.Some? ==> DurationOf(rest) == pair.value + DurationOf(rest[j + 1..])
  {
    DurationStep(rest, 0, j);
    assert rest[0..] == rest;
    pair := PairUs(rest[..j], rest[j]);
  }

  lemma NoUnitRest(s: string, i: int)
    requires 0 <= i <= |s| && forall k :: i <= k < |s| ==> !IsUnit(s[k])
    ensures DurationOf(s[i..]) == 0
  {
    var rest := s[i..];
    forall k | 0 <= k < |rest| ensures !IsUnit(rest[k]) {
      assert rest[k] == s[i + k];
    }
    assert FirstUnit(rest) == |rest|;
  }

  /** One round of the parser: the number before the first unit, then the rest. */
  lemma DurationStep(s: string, i: int, j: int)
    requires 0 <= i <= j < |s| && IsUnit(s[j]) && forall k :: i <= k < j ==> !IsUnit(s[k])
    ensures DurationOf(s[i..]) ==
      match PairUs(s[i..j], s[j])
      case None => 0
      case Some(d) => d + DurationOf(s[j + 1..])
  {
    var rest := s[i..];
    forall k | 0 <= k < j - i ensures !IsUnit(rest[k]) {
      assert rest[k] == s[i + k];
    }
    FirstUnitAt(rest, j - i);
    assert rest[..j - i] == s[i..j];
    assert rest[j - i + 1..] == s[j + 1..];
  }

  lemma DigitsNoUnit(n: int)
    ensures forall i :: 0 <= i < |IntString(n)| ==> !IsUnit(IntString(n)[i])
  {
    var s := IntString(n);
    var digits := NatString(if n < 0 then -n else n);
    forall i | 0 <= i < |s| ensures !IsUnit(s[i]) {
      if n < 0 && i > 0 {
        assert s[i] == digits[i - 1];
      }
    }
  }

  lemma FirstUnitAt(s: string, j: nat)
    requires j < |s| && IsUnit(s[j]) && forall k :: 0 <= k < j ==> !IsUnit(s[k])
    ensures FirstUnit(s) == j
  {
  }

  /** A number followed by a unit adds that many units to the rest of the text. */
  lemma DurationOfPair(n: int, u: char, rest: string)
    requires IsUnit(u)
    ensures DurationOf(IntString(n) + [u] + rest) == UnitsUs(n, u) + DurationOf(rest)
  {
    var digits := IntString(n);
    var s := digits + [u] + rest;
    DigitsNoUnit(n);
    forall k | 0 <= k < |digits| ensures !IsUnit(s[k]) {
      assert s[k] == digits[k];
    }
    FirstUnitAt(s, |digits|);
    assert s[..|digits|] == digits;
    assert s[|digits| + 1..] == rest;
    ParseIntString(n);
  }

  /** A unit with no number before it ends the sum. */
  lemma DurationOfBareUnit(u: char, rest: string)
    requires IsUnit(u)
    ensures DurationOf([u] + rest) == 0
  {
    var s := [u] + rest;
    FirstUnitAt(s, 0);
    assert s[..0] == "";
  }

  /** A trailing number with no unit after it adds nothing. */
  lemma DurationOfTrailingNumber(n: int)
    ensures DurationOf(IntString(n)) == 0
  {
    DigitsNoUnit(n);
  }
}


