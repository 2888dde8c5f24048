/**
 * The main window's logic that is not GTK plumbing: which view is shown
 * and which one Escape returns to, the search for a view that can show a
 * date or an entry, the wrap-around of combobox +/- keys, the clean-up of
 * pasted text and the date order read from the configuration.
 */
module Gui {
  import opened Wrappers
  import opened Text

  // ---------------------------------------------------------------------
  // Pasted text

  /** `_sanitise_pasted_text`: strip, then turn newlines and tabs into spaces. */
  function SanitisePastedText(txt: string): (r: string)
    ensures |r| == |Strip(txt)|
  {
    ReplaceChar(ReplaceChar(Strip(txt), '\n', ' '), '\t', ' ')
  }

  /**
   * Sanitised text holds no newline or tab and no whitespace at either
   * end, and keeps every other character of the stripped text in place.
   */
  lemma SanitiseClean(txt: string)
    ensures var r := SanitisePastedText(txt);
      '\n' !in r && '\t' !in r
      && (|r| > 0 ==> !IsSpace(r[0]) && !IsSpace(r[|r| - 1]))
      && forall i :: 0 <= i < |r| && Strip(txt)[i] != '\n' && Strip(txt)[i] != '\t' ==> r[i] == Strip(txt)[i]
  {
    var s := Strip(txt);
    var t := ReplaceChar(s, '\n', ' ');
    var r := ReplaceChar(t, '\t', ' ');
    if |r| > 0 {
      assert IsSpace('\n') && IsSpace('\t');
      assert r[0] == s[0] && r[|r| - 1] == s[|s| - 1];
    }
  }

  /** Text without whitespace at either end is its own strip. */
  lemma StripTrimmed(s: string)
    requires |s| > 0 ==> !IsSpace(s[0]) && !IsSpace(s[|s| - 1])
    ensures Strip(s) == s
  {
  }

  /** Sanitising sanitised text changes nothing. */
  lemma SanitiseIdempotent(txt: string)
    ensures SanitisePastedText(SanitisePastedText(txt)) == SanitisePastedText(txt)
  {
    var r := SanitisePastedText(txt);
    SanitiseClean(txt);
    StripTrimmed(r);
    ReplaceAbsent(r, '\n', ' ');
    ReplaceAbsent(r, '\t', ' ');
  }

  /** Replacing a character that does not occur changes nothing. */
  lemma ReplaceAbsent(s: string, a: char, b: char)
    requires a !in s
    ensures ReplaceChar(s, a, b) == s
  {
    assert forall i :: 0 <= i < |s| ==> ReplaceChar(s, a, b)[i] == s[i];
  }

  // ---------------------------------------------------------------------
  // Date order

  /**
   * The loop of `_date_order_from_config` over a string: each of Y, M and
   * D is kept at its first appearance, in order of appearance.
   */
  function KeepFirst(s: string): (r: string)
    ensures forall i :: 0 <= i < |r| ==> r[i] in "YMD"
    ensures forall i, j :: 0 <= i < j < |r| ==> r[i] != r[j]
    ensures forall c :: c in "YMD" ==> (c in r <==> c in s)
  {
    if s == [] then []
    else
      var p := KeepFirst(s[..|s| - 1]);
      var c := s[|s| - 1];
      assert s == s[..|s| - 1] + [c];
      if c in "YMD" && c !in p then p + [c] else p
  }

  /** One letter of Y, M, D for each of them that appears. */
  lemma {:induction false} KeepFirstLength(s: string)
    ensures |KeepFirst(s)| == (if 'Y' in s then 1 else 0) + (if 'M' in s then 1 else 0) + (if 'D' in s then 1 else 0)
  {
    if s != [] {
      var pre := s[..|s| - 1];
      var c := s[|s| - 1];
      assert s == pre + [c];
      KeepFirstLength(pre);
    }
  }

  /** The letters kept are in the order of their first appearances. */
  lemma {:induction false} KeepFirstOrder(s: string)
    ensures forall i, j :: 0 <= i < j < |KeepFirst(s)| ==>
      KeepFirst(s)[i] in s && KeepFirst(s)[j] in s && IndexOf(s, KeepFirst(s)[i]) < IndexOf(s, KeepFirst(s)[j])
  {
    if s != [] {
      var pre := s[..|s| - 1];
      var c := s[|s| - 1];
      assert s == pre + [c];
      KeepFirstOrder(pre);
      var p := KeepFirst(pre);
      forall x | x in pre
        ensures IndexOf(s, x) == IndexOf(pre, x)
      {
        IndexOfExtend(pre, c, x);
      }
      var r := KeepFirst(s);
      forall i | 0 <= i < |p|
        ensures p[i] in pre && IndexOf(s, p[i]) < |pre|
      {
        assert p[i] in "YMD";
      }
      if c in "YMD" && c !in p {
        assert c !in pre;
        assert IndexOf(s, c) == |s| - 1;
        assert r == p + [c];
        forall i, j | 0 <= i < j < |r|
          ensures r[i] in s && r[j] in s && IndexOf(s, r[i]) < IndexOf(s, r[j])
        {
          assert r[i] == p[i] && p[i] in pre && IndexOf(s, p[i]) == IndexOf(pre, p[i]);
          if j < |p| {
            assert r[j] == p[j] && p[j] in pre && IndexOf(s, p[j]) == IndexOf(pre, p[j]);
            assert IndexOf(pre, p[i]) < IndexOf(pre, p[j]);
          } else {
            assert r[j] == c && IndexOf(s, c) == |s| - 1;
          }
        }
      } else {
        assert r == p;
        forall i, j | 0 <= i < j < |r|
          ensures r[i] in s && r[j] in s && IndexOf(s, r[i]) < IndexOf(s, r[j])
        {
          assert p[i] in pre && p[j] in pre && IndexOf(pre, p[i]) < IndexOf(pre, p[j]);
          assert IndexOf(s, p[i]) == IndexOf(pre, p[i]) && IndexOf(s, p[j]) == IndexOf(pre, p[j]);
        }
      }
    } else {
      assert KeepFirst(s) == [];
    }
  }

  /** Appending to a string does not move the first appearance of a character already in it. */
  lemma {:induction false} IndexOfExtend(s: string, c: char, x: char)
    requires x in s
    ensures IndexOf(s + [c], x) == IndexOf(s, x)
  {
    if s[0] != x {
      assert (s + [c])[1..] == s[1..] + [c];
      IndexOfExtend(s[1..], c, x);
    }
  }

  /** The error `_date_order_from_config` raises: its assertion fails. */
  datatype OrderError = AssertionError

  /**
   * `_date_order_from_config`: the configured order, upper-cased, reduced
   * to the first Y, M and D; all three must appear.
   */
  method DateOrderFromConfig(raw: string) returns (r: Result<string, OrderError>)
    ensures r.Ok? <==> 'Y' in Upper(raw) && 'M' in Upper(raw) && 'D' in Upper(raw)
    ensures r.Ok? ==> r.value == KeepFirst(Upper(raw)) && |r.value| == 3
  {
    var up := Upper(raw);
    var ret := "";
    var i := 0;
    while i < |up|
      invariant 0 <= i <= |up| && ret == KeepFirst(up[..i])
    {
      var ch := up[i];
      assert up[..i + 1][..i] == up[..i];
      if ch in "YMD" && ch !in ret {
        ret := ret + [ch];
      }
      i := i + 1;
    }
    assert up[..|up|] == up;
    KeepFirstLength(up);
    if |ret| != 3 {
      return Err(AssertionError);
    }
    r := Ok(ret);
  }

  // ---------------------------------------------------------------------
  // Combobox keys

  /**
   * The + key of `_combobox_keypress`: the next item, wrapping from the
   * last to the first. None stands for the ZeroDivisionError of an empty
   * list. `a` is the active item as GTK reports it: -1 for none.
   */
  function ComboNext(a: int, count: nat): (r: Option<int>)
    requires -1 <= a && (count > 0 ==> a < count)
    ensures r.Some? <==> count > 0
    ensures r.Some? ==> 0 <= r.value < count
    ensures r.Some? && -1 <= a < count - 1 ==> r.value == a + 1
    ensures r.Some? && a == count - 1 ==> r.value == 0
  {
    if count == 0 then None
    else if a + 1 < count then
      ModBelow(a + 1, count);
      Some((a + 1) % count)
    else
      ModOnce(a + 1, count);
      Some((a + 1) % count)
  }

  /** The - key: the previous item, wrapping from the first to the last; with no selection (-1), the last. */
  function ComboPrev(a: int, count: nat): (r: Option<int>)
    requires -1 <= a && (count > 0 ==> a < count)
    ensures r.Some? <==> count > 0
    ensures r.Some? ==> 0 <= r.value < count
    ensures r.Some? && 0 < a < count ==> r.value == a - 1
    ensures r.Some? && a <= 0 ==> r.value == count - 1
  {
    if count == 0 then None else
      var a0 := if a < 0 then 0 else a;
      if a0 == 0 then
        ModMinusOne(count);
        Some((a0 - 1) % count)
      else
        ModBelow(a0 - 1, count);
        Some((a0 - 1) % count)
  }

  /** Python's `%` by a positive count on the values the keys and the view loop produce. */
  lemma ModBelow(x: int, n: int)
    requires 0 <= x < n
    ensures x % n == x
  {
  }

  lemma ModOnce(x: int, n: int)
    requires 0 < n <= x < 2 * n
    ensures x % n == x - n
  {
  }

  lemma ModMinusOne(n: int)
    requires 0 < n
    ensures (-1) % n == n - 1
  {
  }

  /** + and - undo each other on any selected item. */
  lemma ComboNextPrev(a: int, count: int)
    requires 0 <= a < count
    ensures ComboPrev(ComboNext(a, count).value, count) == Some(a)
    ensures ComboNext(ComboPrev(a, count).value, count) == Some(a)
  {
  }

  // ---------------------------------------------------------------------
  // Views

  /**
   * The view `k` places after `start` in the cyclic order of `n` views:
   * what `i % len(views)` gives in the loop over `range(start, start + n)`.
   */
  function Cyc(start: int, k: int, n: int): (v: int)
    requires 0 <= start < n && 0 <= k < n
    ensures 0 <= v < n && (start + k) % n == v
  {
    if start + k < n then
      ModBelow(start + k, n);
      start + k
    else
      ModOnce(start + k, n);
      start + k - n
  }

  /**
   * The first view, trying them cyclically from `start` onwards (k steps
   * already tried), that accepts; None when none does.
   */
  function FirstAccepting(accepts: seq<bool>, start: int, k: nat): Option<int>
    requires 0 <= start < |accepts|
    decreases |accepts| - k
  {
    if k >= |accepts| then None
    else if accepts[Cyc(start, k, |accepts|)] then Some(Cyc(start, k, |accepts|))
    else FirstAccepting(accepts, start, k + 1)
  }

  /** View number j in the cyclic order from `start` refuses. */
  predicate Refuses(accepts: seq<bool>, start: int, j: int)
    requires 0 <= start < |accepts| && 0 <= j < |accepts|
  {
    !accepts[Cyc(start, j, |accepts|)]
  }

  /**
   * The search finds an accepting view exactly when there is one, and
   * only skips views that refuse.
   */
  lemma {:induction false} FirstAcceptingSpec(accepts: seq<bool>, start: int, k: nat)
    requires 0 <= start < |accepts|
    ensures var r := FirstAccepting(accepts, start, k);
      (r.Some? ==> 0 <= r.value < |accepts| && accepts[r.value])
      && (r.None? <==> forall j :: k <= j < |accepts| ==> Refuses(accepts, start, j))
    decreases |accepts| - k
  {
    if k < |accepts| {
      if accepts[Cyc(start, k, |accepts|)] {
        assert !Refuses(accepts, start, k);
      } else {
        FirstAcceptingSpec(accepts, start, k + 1);
      }
    }
  }

  /** No view accepts when the search from the first place fails. */
  lemma NoneAccepting(accepts: seq<bool>, start: int)
    requires 0 <= start < |accepts|
    requires FirstAccepting(accepts, start, 0).None?
    ensures forall v :: 0 <= v < |accepts| ==> !accepts[v]
  {
    FirstAcceptingSpec(accepts, start, 0);
    var n := |accepts|;
    forall v | 0 <= v < n
      ensures !accepts[v]
    {
      var j := if v >= start then v - start else v + n - start;
      assert Cyc(start, j, n) == v;
      assert Refuses(accepts, start, j);
    }
  }

  /** The loop of `cursor_goto_date` and `cursor_goto_event` over the views. */
  method FindAccepting(accepts: seq<bool>, start: int) returns (found: Option<int>)
    requires 0 <= start < |accepts|
    ensures found == FirstAccepting(accepts, start, 0)
  {
    var n := |accepts|;
    var i := start;
    while i < start + n
      invariant start <= i <= start + n
      invariant FirstAccepting(accepts, start, i - start) == FirstAccepting(accepts, start, 0)
    {
      var v := i % n;
      assert v == Cyc(start, i - start, n);
      if accepts[v] {
        return Some(v);
      }
      i := i + 1;
    }
    return None;
  }

  /** The view state of `GUI`: the view shown and the one Escape toggles back to (-1 for none). */
  class ViewSwitcher {
    const viewCount: nat
    var viewIdx: int
    var toggleViewIdx: int

    ghost predicate Valid()
      reads this
    {
      viewCount >= 1 && 0 <= viewIdx < viewCount && -1 <= toggleViewIdx < viewCount
    }

    constructor (viewCount: nat)
      requires viewCount >= 1
      ensures Valid() && this.viewCount == viewCount && viewIdx == 0 && toggleViewIdx == -1
    {
      this.viewCount := viewCount;
      viewIdx := 0;
      toggleViewIdx := -1;
    }

    /**
     * `switch_view`: with no index, to the next view cyclically; to view
     * `idx` otherwise, where the current view's index changes nothing. A
     * change records the view left for toggling back.
     */
    method SwitchView(idx: Option<int>) returns (handled: bool)
      requires Valid() && (idx.Some? ==> 0 <= idx.value < viewCount)
      modifies this
      ensures Valid() && handled
      ensures idx.None? ==> viewIdx == (old(viewIdx) + 1) % viewCount && toggleViewIdx == old(viewIdx)
      ensures idx == Some(old(viewIdx)) ==> viewIdx == old(viewIdx) && toggleViewIdx == old(toggleViewIdx)
      ensures idx.Some? && idx.value != old(viewIdx) ==> viewIdx == idx.value && toggleViewIdx == old(viewIdx)
    {
      if idx.None? {
        toggleViewIdx := viewIdx;
        viewIdx := (viewIdx + 1) % viewCount;
      } else if viewIdx == idx.value {
        return true;
      } else {
        toggleViewIdx := viewIdx;
        viewIdx := idx.value;
      }
      handled := true;
    }

    /**
     * Escape in `keypress`: back to the recorded view, if any; a second
     * Escape then returns to where the first one started.
     */
    method KeypressEscape()
      requires Valid()
      modifies this
      ensures Valid()
      ensures old(toggleViewIdx) < 0 || old(toggleViewIdx) == old(viewIdx) ==>
        viewIdx == old(viewIdx) && toggleViewIdx == old(toggleViewIdx)
      ensures 0 <= old(toggleViewIdx) && old(toggleViewIdx) != old(viewIdx) ==>
        viewIdx == old(toggleViewIdx) && toggleViewIdx == old(viewIdx)
    {
      if toggleViewIdx >= 0 {
        var _ := SwitchView(Some(toggleViewIdx));
      }
    }

    /**
     * `cursor_goto_date` / `cursor_goto_event`: `accepts[v]` tells whether
     * view v can show the date or entry. The first accepting view from the
     * current one on, cyclically, becomes the current view.
     */
    method CursorGoto(accepts: seq<bool>)
      requires Valid() && |accepts| == viewCount
      modifies this
      ensures Valid()
      ensures FirstAccepting(accepts, old(viewIdx), 0).Some? ==>
        viewIdx == FirstAccepting(accepts, old(viewIdx), 0).value && accepts[viewIdx]
      ensures accepts[old(viewIdx)] ==> viewIdx == old(viewIdx) && toggleViewIdx == old(toggleViewIdx)
      ensures viewIdx != old(viewIdx) ==> toggleViewIdx == old(viewIdx)
      ensures (forall v :: 0 <= v < viewCount ==> !accepts[v]) ==>
        viewIdx == old(viewIdx) && toggleViewIdx == old(toggleViewIdx)
    {
      var found := FindAccepting(accepts, viewIdx);
      FirstAcceptingSpec(accepts, viewIdx, 0);
      if found.Some? && found.value != viewIdx {
        var _ := SwitchView(Some(found.value));
      }
    }
  }
}
