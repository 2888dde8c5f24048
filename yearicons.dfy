/**
 * The generator of the year view's icon style sheet. Each combination of
 * entry kinds (a non-empty bitmask over the icon groups) gets one rule
 * whose selectors are every combination of the classes of the chosen
 * groups, and whose image is named by the chosen icons joined with '+';
 * a second rule does the same under the cursor. Rules with fewer icons
 * come first, so that the style sheet's later, more specific rules win.
 */
module YearIcons {
  import opened Wrappers
  import opened Text

  /** The style classes that share an icon, one group per icon. */
  const Groups: seq<seq<string>> := [
    ["yearview_entry_single", "yearview_entry_repeated_day", "yearview_entry_repeated_hour",
     "yearview_entry_repeated_minute", "yearview_entry_repeated_second"],
    ["yearview_entry_repeated_month", "yearview_entry_repeated_week"],
    ["yearview_entry_repeated_year"],
    ["yearview_entry_todo"]]

  /** The icon of each group, in the same order. */
  const Icons: seq<string> := ["disc", "loop", "star", "T"]

  const CursorClass := ".yearview_cursor"

  // ---------------------------------------------------------------------
  // Bits of a mask

  function Pow2(j: nat): (p: nat)
    ensures p >= 1
  {
    if j == 0 then 1 else 2 * Pow2(j - 1)
  }

  /** Whether `2**j & i` is non-zero: bit j of i. */
  predicate HasBit(i: nat, j: nat) {
    if j == 0 then i % 2 == 1 else HasBit(i / 2, j - 1)
  }

  /** The number of bits set in i. */
  function Popcount(i: nat): nat {
    if i == 0 then 0 else i % 2 + Popcount(i / 2)
  }

  /** The bits below n set in `mask`, in increasing order: the j the script's inner loop keeps. */
  function Bits(mask: nat, n: nat): (r: seq<nat>)
    ensures |r| <= n
    ensures forall k :: 0 <= k < |r| ==> r[k] < n
  {
    if n == 0 then [] else Bits(mask, n - 1) + (if HasBit(mask, n - 1) then [n - 1] else [])
  }

  /** Bits lists exactly the set bits, each once and in increasing order. */
  lemma {:induction false} BitsSpec(mask: nat, n: nat)
    ensures forall j: nat :: j in Bits(mask, n) <==> j < n && HasBit(mask, j)
    ensures forall a, b :: 0 <= a < b < |Bits(mask, n)| ==> Bits(mask, n)[a] < Bits(mask, n)[b]
  {
    if n > 0 {
      BitsSpec(mask, n - 1);
      var pre := Bits(mask, n - 1);
      var tail: seq<nat> := if HasBit(mask, n - 1) then [n - 1] else [];
      assert Bits(mask, n) == pre + tail;
      forall j: nat
        ensures j in Bits(mask, n) <==> j < n && HasBit(mask, j)
      {
        assert j in pre + tail <==> j in pre || j in tail;
      }
    }
  }

  /** How many bits below n are set, counted from the top. */
  function BitCount(mask: nat, n: nat): nat {
    if n == 0 then 0 else BitCount(mask, n - 1) + (if HasBit(mask, n - 1) then 1 else 0)
  }

  lemma {:induction false} BitsLength(mask: nat, n: nat)
    ensures |Bits(mask, n)| == BitCount(mask, n)
  {
    if n > 0 {
      BitsLength(mask, n - 1);
    }
  }

  /** Counting from the top equals taking the lowest bit and counting the rest. */
  lemma {:induction false} BitCountLow(mask: nat, n: nat)
    requires n > 0
    ensures BitCount(mask, n) == mask % 2 + BitCount(mask / 2, n - 1)
  {
    if n > 1 {
      BitCountLow(mask, n - 1);
    }
  }

  /** For a mask of n bits, the groups chosen are as many as the bits set. */
  lemma {:induction false} BitCountPopcount(mask: nat, n: nat)
    requires mask < Pow2(n)
    ensures BitCount(mask, n) == Popcount(mask)
  {
    if n > 0 {
      BitCountLow(mask, n);
      BitCountPopcount(mask / 2, n - 1);
    }
  }

  /** A non-zero mask has a bit set. */
  lemma {:induction false} PopcountPositive(mask: nat)
    ensures Popcount(mask) > 0 <==> mask > 0
  {
    if mask > 0 && mask % 2 == 0 {
      PopcountPositive(mask / 2);
    }
  }

  // ---------------------------------------------------------------------
  // The order tables

  /**
   * The masks in the order the rules are written, for 2, 3 or 4 groups;
   * None for any other number, where the script reports the case and has
   * no order to go through.
   */
  function Order(n: int): (r: Option<seq<nat>>)
    ensures r.Some? <==> 2 <= n <= 4
  {
    if n == 2 then Some([1, 2, 3])
    else if n == 3 then Some([1, 2, 4, 3, 5, 6, 7])
    else if n == 4 then Some([1, 2, 4, 8, 3, 5, 9, 6, 10, 12, 7, 11, 13, 14, 15])
    else None
  }

  /** Each table lists every non-empty mask of n bits exactly once, and no other value. */
  lemma OrderIsAllMasks(n: int)
    requires 2 <= n <= 4
    ensures var o := Order(n).value;
      |o| == Pow2(n) - 1
      && (forall k :: 0 <= k < |o| ==> 1 <= o[k] < Pow2(n))
      && (forall a, b :: 0 <= a < b < |o| ==> o[a] != o[b])
  {
  }

  /** Hence each table is a permutation of the non-empty masks: every one of them appears. */
  lemma OrderCoversMasks(n: int)
    requires 2 <= n <= 4
    ensures forall x :: 1 <= x < Pow2(n) ==> x in Order(n).value
  {
    OrderIsAllMasks(n);
    DistinctCovers(Order(n).value, Pow2(n));
  }

  /** m - 1 distinct values from 1..m-1 are all of them. */
  lemma DistinctCovers(o: seq<nat>, m: nat)
    requires m >= 1 && |o| == m - 1
    requires forall k :: 0 <= k < |o| ==> 1 <= o[k] < m
    requires forall a, b :: 0 <= a < b < |o| ==> o[a] != o[b]
    ensures forall x :: 1 <= x < m ==> x in o
  {
    var vals := set k | 0 <= k < |o| :: o[k];
    var range := Masks(m);
    DistinctCard(o);
    assert vals <= range;
    if vals != range {
      SubsetCard(vals, range);
    }
    forall x | 1 <= x < m
      ensures x in o
    {
      assert x in range;
      var k :| 0 <= k < |o| && o[k] == x;
    }
  }

  /** A set strictly inside another is smaller. */
  lemma SubsetCard(a: set<nat>, b: set<nat>)
    requires a < b
    ensures |a| < |b|
  {
    var x :| x in b - a;
    assert b == a + (b - a);
    assert |b - a| > 0;
  }

  /** The values 1..m-1. */
  function Masks(m: nat): (r: set<nat>)
    ensures forall x :: x in r <==> 1 <= x < m
    ensures |r| == if m >= 1 then m - 1 else 0
  {
    if m <= 1 then {} else Masks(m - 1) + {m - 1}
  }

  lemma {:induction false} DistinctCard(o: seq<nat>)
    requires forall a, b :: 0 <= a < b < |o| ==> o[a] != o[b]
    ensures |set k | 0 <= k < |o| :: o[k]| == |o|
  {
    if o != [] {
      var pre := o[..|o| - 1];
      DistinctCard(pre);
      assert (set k | 0 <= k < |o| :: o[k]) == (set k | 0 <= k < |pre| :: pre[k]) + {o[|o| - 1]};
    }
  }

  /** Each table lists its masks by non-decreasing number of bits set, single icons first. */
  lemma OrderByPopcount(n: int)
    requires 2 <= n <= 4
    ensures var o := Order(n).value;
      forall a, b :: 0 <= a < b < |o| ==> Popcount(o[a]) <= Popcount(o[b])
  {
    var o := Order(n).value;
    forall a, b | 0 <= a < b < |o|
      ensures Popcount(o[a]) <= Popcount(o[b])
    {
      EntryPopcount(n, a);
      EntryPopcount(n, b);
    }
  }

  /** The number of icons the k-th rule of the table for n groups is meant to show. */
  function IconsAt(n: int, k: nat): nat {
    if n == 2 then (if k < 2 then 1 else 2)
    else if n == 3 then (if k < 3 then 1 else if k < 6 then 2 else 3)
    else (if k < 4 then 1 else if k < 10 then 2 else if k < 14 then 3 else 4)
  }

  /** Entry by entry, the bits set in each table. */
  lemma EntryPopcount(n: int, k: nat)
    requires 2 <= n <= 4 && k < |Order(n).value|
    ensures Popcount(Order(n).value[k]) == IconsAt(n, k)
  {
    PopcountSmall();
    var o := Order(n).value;
    if n == 2 {
      assert o == [1, 2, 3];
      if k == 0 { assert o[0] == 1; }
      else if k == 1 { assert o[1] == 2; }
      else { assert o[2] == 3; }
    } else if n == 3 {
      assert o == [1, 2, 4, 3, 5, 6, 7];
      if k == 0 { assert o[0] == 1; }
      else if k == 1 { assert o[1] == 2; }
      else if k == 2 { assert o[2] == 4; }
      else if k == 3 { assert o[3] == 3; }
      else if k == 4 { assert o[4] == 5; }
      else if k == 5 { assert o[5] == 6; }
      else { assert o[6] == 7; }
    } else {
      Table4Popcount(k);
    }
  }

  lemma Table4Popcount(k: nat)
    requires k < 15
    ensures Popcount(Order(4).value[k]) == IconsAt(4, k)
  {
    PopcountSmall();
    var o := Order(4).value;
    assert o == [1, 2, 4, 8, 3, 5, 9, 6, 10, 12, 7, 11, 13, 14, 15];
    if k == 0 { assert o[0] == 1; }
    else if k == 1 { assert o[1] == 2; }
    else if k == 2 { assert o[2] == 4; }
    else if k == 3 { assert o[3] == 8; }
    else if k == 4 { assert o[4] == 3; }
    else if k == 5 { assert o[5] == 5; }
    else if k == 6 { assert o[6] == 9; }
    else if k == 7 { assert o[7] == 6; }
    else if k == 8 { assert o[8] == 10; }
    else if k == 9 { assert o[9] == 12; }
    else if k == 10 { assert o[10] == 7; }
    else if k == 11 { assert o[11] == 11; }
    else if k == 12 { assert o[12] == 13; }
    else if k == 13 { assert o[13] == 14; }
    else { assert o[14] == 15; }
  }

  /** The bits set in the masks below 16. */
  lemma PopcountSmall()
    ensures Popcount(1) == 1 && Popcount(2) == 1 && Popcount(4) == 1 && Popcount(8) == 1
    ensures Popcount(3) == 2 && Popcount(5) == 2 && Popcount(6) == 2
    ensures Popcount(9) == 2 && Popcount(10) == 2 && Popcount(12) == 2
    ensures Popcount(7) == 3 && Popcount(11) == 3 && Popcount(13) == 3 && Popcount(14) == 3
    ensures Popcount(15) == 4
  {
  }

  /**
   * Consequently the rules the script writes choose 1..n groups, never
   * fewer groups than an earlier rule.
   */
  lemma ChosenGroupsGrow(n: int)
    requires 2 <= n <= 4
    ensures var o := Order(n).value;
      (forall k :: 0 <= k < |o| ==> 1 <= |Bits(o[k], n)| <= n)
      && forall a, b :: 0 <= a < b < |o| ==> |Bits(o[a], n)| <= |Bits(o[b], n)|
  {
    var o := Order(n).value;
    OrderIsAllMasks(n);
    OrderByPopcount(n);
    forall k | 0 <= k < |o|
      ensures |Bits(o[k], n)| == Popcount(o[k]) && Popcount(o[k]) >= 1
    {
      BitsLength(o[k], n);
      BitCountPopcount(o[k], n);
      PopcountPositive(o[k]);
    }
  }

  // ---------------------------------------------------------------------
  // Joining and selectors

  /** Splitting a '+'-joined icon name at '+' gives back the icon names. */
  lemma {:induction false} SplitJoin(parts: seq<string>, c: char)
    requires |parts| >= 1
    requires forall k :: 0 <= k < |parts| ==> c !in parts[k]
    ensures Split(Join(parts, [c]), c) == parts
  {
    if |parts| > 1 {
      var rest := Join(parts[1..], [c]);
      var s := parts[0] + [c] + rest;
      assert s[|parts[0]|] == c;
      assert s[..|parts[0]|] == parts[0];
      IndexOfAt(s, c, |parts[0]|);
      assert s[|parts[0]| + 1..] == rest;
      SplitJoin(parts[1..], c);
    }
  }

  /** Each tail prefixed with p. */
  function Prefixed(p: string, tails: seq<string>): (r: seq<string>)
    ensures |r| == |tails| && forall k :: 0 <= k < |tails| ==> r[k] == p + tails[k]
  {
    seq(|tails|, k requires 0 <= k < |tails| => p + tails[k])
  }

  /** One class of `g` (the outer loop) before each tail (the inner loops). */
  function Expand(g: seq<string>, tails: seq<string>): seq<string> {
    if g == [] then [] else Prefixed("." + g[0], tails) + Expand(g[1..], tails)
  }

  /** The selector combinations of the groups' classes: the comprehensions of `print_groups`. */
  function Product(gps: seq<seq<string>>): seq<string>
    decreases |gps|
  {
    if gps == [] then [""] else Expand(gps[0], Product(gps[1..]))
  }

  /** The number of combinations: the product of the group sizes. */
  function Combinations(gps: seq<seq<string>>): nat
    decreases |gps|
  {
    if gps == [] then 1 else |gps[0]| * Combinations(gps[1..])
  }

  lemma {:induction false} ExpandAt(g: seq<string>, tails: seq<string>, i: nat, k: nat)
    requires i < |g| && k < |tails|
    ensures |Expand(g, tails)| == |g| * |tails|
    ensures i * |tails| + k < |Expand(g, tails)|
    ensures Expand(g, tails)[i * |tails| + k] == "." + g[i] + tails[k]
  {
    ExpandLength(g, tails);
    if i > 0 {
      ExpandAt(g[1..], tails, i - 1, k);
      assert i * |tails| + k == |tails| + ((i - 1) * |tails| + k);
    }
  }

  lemma {:induction false} ExpandLength(g: seq<string>, tails: seq<string>)
    ensures |Expand(g, tails)| == |g| * |tails|
  {
    if g != [] {
      ExpandLength(g[1..], tails);
      assert |g| * |tails| == |tails| + (|g| - 1) * |tails|;
    }
  }

  lemma {:induction false} ProductLength(gps: seq<seq<string>>)
    ensures |Product(gps)| == Combinations(gps)
    decreases |gps|
  {
    if gps != [] {
      ProductLength(gps[1..]);
      ExpandLength(gps[0], Product(gps[1..]));
    }
  }

  /** A choice of one class from each group, by index. */
  predicate IsChoice(gps: seq<seq<string>>, idx: seq<nat>) {
    |idx| == |gps| && forall k :: 0 <= k < |gps| ==> idx[k] < |gps[k]|
  }

  /** The selector of a choice: ".a.b...". */
  function Picked(gps: seq<seq<string>>, idx: seq<nat>): string
    requires IsChoice(gps, idx)
    decreases |gps|
  {
    if gps == [] then "" else "." + gps[0][idx[0]] + Picked(gps[1..], idx[1..])
  }

  /** The position of a choice in the comprehensions' order: the first group varies slowest. */
  function Position(gps: seq<seq<string>>, idx: seq<nat>): nat
    requires IsChoice(gps, idx)
    decreases |gps|
  {
    if gps == [] then 0 else idx[0] * Combinations(gps[1..]) + Position(gps[1..], idx[1..])
  }

  /**
   * There is one selector per combination, and every choice of one class
   * from each group appears, at its place in the comprehensions' order.
   */
  lemma {:induction false} ProductAt(gps: seq<seq<string>>, idx: seq<nat>)
    requires IsChoice(gps, idx)
    ensures |Product(gps)| == Combinations(gps)
    ensures Position(gps, idx) < |Product(gps)|
    ensures Product(gps)[Position(gps, idx)] == Picked(gps, idx)
    decreases |gps|
  {
    ProductLength(gps);
    if gps != [] {
      var rest := Product(gps[1..]);
      assert IsChoice(gps[1..], idx[1..]);
      ProductAt(gps[1..], idx[1..]);
      ProductLength(gps[1..]);
      ExpandAt(gps[0], rest, idx[0], Position(gps[1..], idx[1..]));
    }
  }

  /** The selectors `print_groups` writes, suffixed with the cursor class when asked. */
  function Selectors(gps: seq<seq<string>>, cursor: bool): (r: seq<string>)
    ensures |r| == |Product(gps)|
    ensures forall k :: 0 <= k < |r| ==> r[k] == if cursor then Product(gps)[k] + CursorClass else Product(gps)[k]
  {
    var p := Product(gps);
    if cursor then seq(|p|, k requires 0 <= k < |p| => p[k] + CursorClass) else p
  }

  /** The error of `print_groups` for no group or more than four. */
  datatype IconError = UnhandledGroups(count: nat) | NoOrder(count: nat)

  /** `print_groups`: the selectors joined with ", ", or the error exit. */
  function PrintGroups(gps: seq<seq<string>>, cursor: bool): (r: Result<string, IconError>)
    ensures r.Err? <==> !(1 <= |gps| <= 4)
    ensures r.Err? ==> r.error == UnhandledGroups(|gps|)
    ensures r.Ok? ==> r.value == Join(Selectors(gps, cursor), ", ")
  {
    if 1 <= |gps| <= 4 then Ok(Join(Selectors(gps, cursor), ", ")) else Err(UnhandledGroups(|gps|))
  }

  // ---------------------------------------------------------------------
  // The rules

  /** A rule of the style sheet: its selectors, its image's name and whether it is the cursor variant. */
  datatype Rule = Rule(selectors: string, icon: string, cursor: bool)

  /** The groups mask i chooses, and the icon name: the spec of the inner loop. */
  function ChosenGroups(groups: seq<seq<string>>, mask: nat): seq<seq<string>> {
    var b := Bits(mask, |groups|);
    seq(|b|, k requires 0 <= k < |b| => groups[b[k]])
  }

  function ChosenIcons(groups: seq<seq<string>>, icons: seq<string>, mask: nat): seq<string>
    requires |icons| >= |groups|
  {
    var b := Bits(mask, |groups|);
    seq(|b|, k requires 0 <= k < |b| => icons[b[k]])
  }

  function IconName(groups: seq<seq<string>>, icons: seq<string>, mask: nat): string
    requires |icons| >= |groups|
  {
    Join(ChosenIcons(groups, icons, mask), "+")
  }

  /**
   * The inner loop for mask i: the groups and icons j with `2**j & i`
   * set, in increasing j, and the icon names joined with '+'.
   */
  method ChooseGroups(groups: seq<seq<string>>, icons: seq<string>, mask: nat)
    returns (gps: seq<seq<string>>, icon: string)
    requires |icons| >= |groups|
    ensures gps == ChosenGroups(groups, mask)
    ensures icon == IconName(groups, icons, mask)
  {
    gps := [];
    var names: seq<string> := [];
    var j := 0;
    while j < |groups|
      invariant 0 <= j <= |groups|
      invariant |gps| == |names| == |Bits(mask, j)|
      invariant forall k :: 0 <= k < |gps| ==> gps[k] == groups[Bits(mask, j)[k]] && names[k] == icons[Bits(mask, j)[k]]
    {
      if HasBit(mask, j) {
        gps := gps + [groups[j]];
        names := names + [icons[j]];
      }
      j := j + 1;
    }
    assert names == ChosenIcons(groups, icons, mask);
    icon := Join(names, "+");
  }

  /** The groups the script's own masks choose can always be printed. */
  lemma OrderPrintable(groups: seq<seq<string>>, icons: seq<string>, k: nat, cursor: bool)
    requires |icons| >= |groups| && 2 <= |groups| <= 4 && k < |Order(|groups|).value|
    ensures PrintGroups(ChosenGroups(groups, Order(|groups|).value[k]), cursor)
      == Ok(RuleFor(groups, icons, Order(|groups|).value[k], cursor).selectors)
  {
    ChosenGroupsGrow(|groups|);
  }

  /** The rule the script writes for a mask, plain or under the cursor. */
  function RuleFor(groups: seq<seq<string>>, icons: seq<string>, mask: nat, cursor: bool): Rule
    requires |icons| >= |groups|
  {
    Rule(Join(Selectors(ChosenGroups(groups, mask), cursor), ", "), IconName(groups, icons, mask), cursor)
  }

  /** The icon name of any mask splits at '+' into the chosen icons, in group order. */
  lemma IconNameSplits(mask: nat)
    requires 0 < mask < Pow2(|Groups|)
    ensures Split(IconName(Groups, Icons, mask), '+') == ChosenIcons(Groups, Icons, mask)
  {
    var b := Bits(mask, |Groups|);
    BitsLength(mask, |Groups|);
    BitCountPopcount(mask, |Groups|);
    PopcountPositive(mask);
    var names := ChosenIcons(Groups, Icons, mask);
    forall k | 0 <= k < |names|
      ensures '+' !in names[k]
    {
      assert names[k] in Icons;
    }
    SplitJoin(names, '+');
  }

  /** The first k masks of the order have their two rules in place. */
  ghost predicate RulesUpTo(groups: seq<seq<string>>, icons: seq<string>, o: seq<nat>, rules: seq<Rule>, k: nat)
    requires |icons| >= |groups|
  {
    k <= |o| && |rules| == 2 * k
    && forall m :: 0 <= m < k ==>
      rules[2 * m] == RuleFor(groups, icons, o[m], false) && rules[2 * m + 1] == RuleFor(groups, icons, o[m], true)
  }

  lemma RulesStep(groups: seq<seq<string>>, icons: seq<string>, o: seq<nat>, rules: seq<Rule>, k: nat)
    requires |icons| >= |groups| && RulesUpTo(groups, icons, o, rules, k) && k < |o|
    ensures RulesUpTo(groups, icons, o, rules + [RuleFor(groups, icons, o[k], false), RuleFor(groups, icons, o[k], true)], k + 1)
  {
    var next := rules + [RuleFor(groups, icons, o[k], false), RuleFor(groups, icons, o[k], true)];
    forall m | 0 <= m < k + 1
      ensures next[2 * m] == RuleFor(groups, icons, o[m], false) && next[2 * m + 1] == RuleFor(groups, icons, o[m], true)
    {
      if m < k {
        assert next[2 * m] == rules[2 * m] && next[2 * m + 1] == rules[2 * m + 1];
      }
    }
  }

  /**
   * The script's main loop: for each mask of the order, the plain rule and
   * then the cursor rule; an error when there is no order for the number
   * of groups. That `print_groups` never fails here is `OrderPrintable`.
   */
  method MakeRules(groups: seq<seq<string>>, icons: seq<string>) returns (r: Result<seq<Rule>, IconError>)
    requires |icons| >= |groups|
    ensures r.Err? <==> Order(|groups|).None?
    ensures r.Err? ==> r.error == NoOrder(|groups|)
    ensures r.Ok? ==> |r.value| == 2 * |Order(|groups|).value|
    ensures r.Ok? ==> forall k :: 0 <= k < |Order(|groups|).value| ==>
      r.value[2 * k] == RuleFor(groups, icons, Order(|groups|).value[k], false)
      && r.value[2 * k + 1] == RuleFor(groups, icons, Order(|groups|).value[k], true)
  {
    var order := Order(|groups|);
    if order.None? {
      return Err(NoOrder(|groups|));
    }
    var o := order.value;
    var rules: seq<Rule> := [];
    var k := 0;
    while k < |o|
      invariant RulesUpTo(groups, icons, o, rules, k)
    {
      var gps, icon := ChooseGroups(groups, icons, o[k]);
      OrderPrintable(groups, icons, k, false);
      OrderPrintable(groups, icons, k, true);
      var plain := PrintGroups(gps, false);
      var withCursor := PrintGroups(gps, true);
      RulesStep(groups, icons, o, rules, k);
      rules := rules + [Rule(plain.value, icon, false), Rule(withCursor.value, icon, true)];
      k := k + 1;
    }
    r := Ok(rules);
  }
}
