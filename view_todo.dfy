/**
 * The to-do view: a row of lists, each showing the to-dos whose categories
 * match that list's configured filter, with a cursor naming a list and an
 * item in it. A to-do is represented by its property map.
 */
module TodoView {
  import opened Wrappers
  import opened Text
  import opened Entries
  import opened Util

  type Props = map<string, Value>

  const Uncategorized := "UNCATEGORIZED"

  /**
   * `_default_cats_from_filter`: the categories a new to-do created in a
   * list gets, so that it shows in that list.
   */
  function DefaultCats(filt: Option<string>): (r: Option<seq<string>>)
    ensures r.None? <==> filt.None? || filt.value == "" || filt.value == Uncategorized
    ensures r.Some? ==> r.value == [filt.value]
  {
    if filt.None? || filt.value == "" || filt.value == Uncategorized then None
    else Some([filt.value])
  }

  /** The names in `names` that are not empty, in order. */
  function NonEmpty(names: seq<string>): (r: seq<string>)
    ensures |r| <= |names|
    ensures forall c :: c in r <==> c in names && c != ""
  {
    if |names| == 0 then []
    else (if names[0] == "" then [] else [names[0]]) + NonEmpty(names[1..])
  }

  /** The category names one element of a CATEGORIES value carries. */
  function ItemCats(item: CatItem): seq<string> {
    match item
    case CatText(t) => NonEmpty(Split(t, ','))
    case CatGroup(cs) => NonEmpty(cs)
  }

  function AllItemCats(items: seq<CatItem>): (r: seq<string>)
    ensures forall c :: c in r <==> exists k :: 0 <= k < |items| && c in ItemCats(items[k])
  {
    if |items| == 0 then []
    else
      var rest := AllItemCats(items[1..]);
      assert forall c :: c in rest <==> exists k :: 1 <= k < |items| && c in ItemCats(items[k]) by {
        forall c | c in rest ensures exists k :: 1 <= k < |items| && c in ItemCats(items[k]) {
          var k :| 0 <= k < |items[1..]| && c in ItemCats(items[1..][k]);
          assert c in ItemCats(items[k + 1]);
        }
        forall c | exists k :: 1 <= k < |items| && c in ItemCats(items[k]) ensures c in rest {
          var k :| 1 <= k < |items| && c in ItemCats(items[k]);
          assert items[1..][k - 1] == items[k];
        }
      }
      ItemCats(items[0]) + rest
  }

  /**
   * `_get_categories`: the to-do's category names, each comma-separated
   * text split at its commas, empty names dropped.
   */
  function GetCategories(td: Props): (r: seq<string>)
    requires "CATEGORIES" in td ==> td["CATEGORIES"].Categories?
    ensures "CATEGORIES" !in td ==> r == []
    ensures "CATEGORIES" in td ==> forall c :: c in r <==>
      exists k :: 0 <= k < |td["CATEGORIES"].items| && c in ItemCats(td["CATEGORIES"].items[k])
  {
    if "CATEGORIES" !in td then [] else AllItemCats(td["CATEGORIES"].items)
  }

  /** No category name the view reads is empty. */
  lemma CategoriesNonEmpty(td: Props, c: string)
    requires "CATEGORIES" in td ==> td["CATEGORIES"].Categories?
    requires c in GetCategories(td)
    ensures c != ""
  {
    var items := td["CATEGORIES"].items;
    var k :| 0 <= k < |items| && c in ItemCats(items[k]);
  }

  /** A text element without commas names exactly itself, unless it is empty. */
  lemma TextCategory(t: string)
    requires ',' !in t
    ensures ItemCats(CatText(t)) == if t == "" then [] else [t]
  {
  }

  /** A text element's names contain no comma: it is cut at every one. */
  lemma TextCategoriesNoComma(t: string, c: string)
    requires c in ItemCats(CatText(t))
    ensures ',' !in c
  {
  }

  /**
   * `_todo_matches_filter`: no filter matches every to-do; a to-do with
   * no categories matches only the "UNCATEGORIZED" filter; otherwise the
   * filter must be one of the to-do's categories.
   */
  predicate Matches(td: Props, filt: Option<string>)
    requires "CATEGORIES" in td ==> td["CATEGORIES"].Categories?
  {
    var cats := GetCategories(td);
    filt.None? || (if |cats| == 0 then filt.value == Uncategorized else filt.value in cats)
  }

  /** The to-do a new item in a list gets: the list's default categories as one category list. */
  function WithDefaultCats(td: Props, filt: Option<string>): (r: Props)
    ensures "CATEGORIES" in r ==> r["CATEGORIES"].Categories?
  {
    match DefaultCats(filt)
    case None => td - {"CATEGORIES"}
    case Some(cats) => td["CATEGORIES" := Categories([CatGroup(cats)])]
  }

  /**
   * A to-do given a list's default categories shows in that list, for
   * every filter except the empty one.
   */
  lemma DefaultCatsMatch(td: Props, filt: Option<string>)
    requires filt != Some("")
    ensures Matches(WithDefaultCats(td, filt), filt)
  {
    var r := WithDefaultCats(td, filt);
    if filt.Some? && filt.value != Uncategorized {
      assert ItemCats(CatGroup([filt.value])) == [filt.value];
      assert filt.value in GetCategories(r);
    }
  }

  /** The empty filter is the exception: its default to-do has no categories, which it does not match. */
  lemma EmptyFilterMatchesNoDefault(td: Props)
    ensures !Matches(WithDefaultCats(td, Some("")), Some(""))
  {
    assert GetCategories(WithDefaultCats(td, Some(""))) == [];
  }

  /** A to-do in a list with a named filter carries that category. */
  lemma MatchesNamed(td: Props, f: string)
    requires "CATEGORIES" in td ==> td["CATEGORIES"].Categories?
    requires Matches(td, Some(f)) && f != Uncategorized
    ensures f in GetCategories(td) && f != ""
  {
    CategoriesNonEmpty(td, f);
  }

  predicate CatsTyped(todos: seq<Props>) {
    forall k :: 0 <= k < |todos| ==> ("CATEGORIES" in todos[k] ==> todos[k]["CATEGORIES"].Categories?)
  }

  /** The to-dos of `todos` that match `filt`, in order. */
  function Select(todos: seq<Props>, filt: Option<string>): (r: seq<Props>)
    requires CatsTyped(todos)
    ensures |r| <= |todos|
  {
    if |todos| == 0 then []
    else (if Matches(todos[0], filt) then [todos[0]] else []) + Select(todos[1..], filt)
  }

  /** A list shows a to-do exactly when the to-do is in the calendar and matches the list's filter. */
  lemma {:induction false} SelectMembers(todos: seq<Props>, filt: Option<string>, td: Props)
    requires CatsTyped(todos)
    ensures td in Select(todos, filt) <==> td in todos && Matches(td, filt)
  {
    if |todos| > 0 {
      SelectMembers(todos[1..], filt, td);
      assert todos == [todos[0]] + todos[1..];
    }
  }

  /** The inner loop of `redraw`: the to-dos matching one list's filter, and how many there are. */
  method Matching(todos: seq<Props>, filt: Option<string>) returns (lst: seq<Props>, count: int)
    requires CatsTyped(todos)
    ensures lst == Select(todos, filt) && count == |lst|
  {
    count := 0;
    lst := [];
    var k := 0;
    while k < |todos|
      invariant 0 <= k <= |todos| && count == |lst|
      invariant SelectedSoFar(todos, filt, lst, k)
    {
      SelectAdvance(todos, filt, lst, k);
      if Matches(todos[k], filt) {
        lst := lst + [todos[k]];
        count := count + 1;
      }
      k := k + 1;
    }
    assert todos[k..] == [];
  }

  /** The loop invariant of `Matching`: `lst` holds the selection from the to-dos before k. */
  ghost predicate SelectedSoFar(todos: seq<Props>, filt: Option<string>, lst: seq<Props>, k: int)
    requires CatsTyped(todos) && 0 <= k <= |todos|
  {
    Select(todos, filt) == lst + Select(todos[k..], filt)
  }

  lemma SelectAdvance(todos: seq<Props>, filt: Option<string>, lst: seq<Props>, k: int)
    requires CatsTyped(todos) && 0 <= k < |todos| && SelectedSoFar(todos, filt, lst, k)
    ensures Matches(todos[k], filt) ==> SelectedSoFar(todos, filt, lst + [todos[k]], k + 1)
    ensures !Matches(todos[k], filt) ==> SelectedSoFar(todos, filt, lst, k + 1)
  {
    SelectStep(todos, k, filt);
    var rest := Select(todos[k + 1..], filt);
    if Matches(todos[k], filt) {
      assert lst + ([todos[k]] + rest) == (lst + [todos[k]]) + rest;
    } else {
      assert [] + rest == rest;
    }
  }

  /** The outer loop of `redraw`: one list of matching to-dos, and its count, per filter. */
  method Partition(todos: seq<Props>, filters: seq<Option<string>>) returns (items: seq<seq<Props>>, counts: seq<int>)
    requires CatsTyped(todos)
    ensures |items| == |filters| && |counts| == |filters|
    ensures forall j :: 0 <= j < |filters| ==> items[j] == Select(todos, filters[j]) && counts[j] == |items[j]|
  {
    items, counts := [], [];
    var i := 0;
    while i < |filters|
      invariant 0 <= i <= |filters| && |items| == i && |counts| == i
      invariant ListsSoFar(todos, filters, items, counts)
    {
      var lst, count := Matching(todos, filters[i]);
      ListsStep(todos, filters, items, counts, lst, count);
      items := items + [lst];
      counts := counts + [count];
      i := i + 1;
    }
  }

  /** The loop invariant of `Partition`: the lists built so far, one per filter before them. */
  ghost predicate ListsSoFar(todos: seq<Props>, filters: seq<Option<string>>, items: seq<seq<Props>>, counts: seq<int>)
    requires CatsTyped(todos)
  {
    |items| <= |filters| && |counts| == |items|
    && forall j :: 0 <= j < |items| ==> items[j] == Select(todos, filters[j]) && counts[j] == |items[j]|
  }

  lemma ListsStep(todos: seq<Props>, filters: seq<Option<string>>, items: seq<seq<Props>>, counts: seq<int>,
                  lst: seq<Props>, count: int)
    requires CatsTyped(todos) && ListsSoFar(todos, filters, items, counts) && |items| < |filters|
    requires lst == Select(todos, filters[|items|]) && count == |lst|
    ensures ListsSoFar(todos, filters, items + [lst], counts + [count])
  {
  }

  lemma SelectStep(todos: seq<Props>, k: int, filt: Option<string>)
    requires CatsTyped(todos) && 0 <= k < |todos|
    ensures Select(todos[k..], filt) == (if Matches(todos[k], filt) then [todos[k]] else []) + Select(todos[k + 1..], filt)
  {
    assert todos[k..][0] == todos[k] && todos[k..][1..] == todos[k + 1..];
  }

  class TodoList {
    /** The filter of each list, from the configuration. */
    const filters: seq<Option<string>>
    var itemCounts: seq<int>
    var listItems: seq<seq<Props>>
    var cursorList: int
    var cursorIdx: int

    /** At least one list is configured and the cursor is on a list and an item (or 0 in an empty list). */
    ghost predicate Valid()
      reads this
    {
      |filters| >= 1 && |itemCounts| == |filters|
      && 0 <= cursorList < |filters|
      && 0 <= cursorIdx && (cursorIdx < itemCounts[cursorList] || cursorIdx == 0)
    }

    /** The lists were built by `redraw`. */
    ghost predicate Drawn()
      reads this
    {
      Valid() && |listItems| == |filters|
      && forall i :: 0 <= i < |filters| ==> itemCounts[i] == |listItems[i]|
    }

    /** `_init_parse_list_config`: one list per configured filter, all empty. */
    constructor (filters: seq<Option<string>>)
      requires |filters| >= 1
      ensures Valid() && this.filters == filters && listItems == []
      ensures cursorList == 0 && cursorIdx == 0
      ensures |itemCounts| == |filters| && forall i :: 0 <= i < |filters| ==> itemCounts[i] == 0
    {
      this.filters := filters;
      itemCounts := seq(|filters|, _ => 0);
      listItems := [];
      cursorList := 0;
      cursorIdx := 0;
    }

    /** `list_default_cats`: the categories a new to-do in the cursor's list gets. */
    function CursorDefaultCats(): Option<seq<string>>
      reads this
      requires Valid()
    {
      DefaultCats(filters[cursorList])
    }

    /**
     * `redraw`: nothing happens unless the entries changed; then list i gets
     * the to-dos matching filter i, in calendar order, and its count, and
     * the cursor is clamped into the new lists.
     */
    method Redraw(enChanges: bool, todos: seq<Props>)
      requires Valid() && CatsTyped(todos)
      modifies this
      ensures !enChanges ==> unchanged(this)
      ensures Valid()
      ensures enChanges ==> Drawn()
      ensures enChanges ==> forall i :: 0 <= i < |filters| ==> listItems[i] == Select(todos, filters[i])
      ensures enChanges ==> cursorList == old(cursorList) && cursorIdx == Clamp(old(cursorIdx), itemCounts[cursorList])
    {
      if !enChanges {
        return;
      }
      var items, counts := Partition(todos, filters);
      listItems := items;
      itemCounts := counts;
      ShowCursor();
    }

    /** The clamping of `_show_cursor`: the list into 0..list_count-1, then the index into that list. */
    method ShowCursor()
      requires |filters| >= 1 && |itemCounts| == |filters|
      modifies this
      ensures Valid() && itemCounts == old(itemCounts) && listItems == old(listItems)
      ensures cursorList == Clamp(old(cursorList), |filters|)
      ensures cursorIdx == Clamp(old(cursorIdx), itemCounts[cursorList])
    {
      if !(0 <= cursorList < |filters|) {
        cursorList := if |filters| - 1 > 0 then |filters| - 1 else 0;
      }
      var icount := itemCounts[cursorList];
      if !(0 <= cursorIdx < icount) {
        cursorIdx := if icount - 1 > 0 then icount - 1 else 0;
      }
    }

    /** `_cursor_move_up`: one item up; from the first item, to the last. */
    method CursorMoveUp()
      requires Valid()
      modifies this
      ensures Valid() && cursorList == old(cursorList) && itemCounts == old(itemCounts) && listItems == old(listItems)
      ensures cursorIdx == Clamp(old(cursorIdx) - 1, itemCounts[cursorList])
    {
      cursorIdx := cursorIdx - 1;
      ShowCursor();
    }

    /** `_cursor_move_dn`: one item down, wrapping to the first; nothing in an empty list. */
    method CursorMoveDn()
      requires Valid()
      modifies this
      ensures Valid() && cursorList == old(cursorList) && itemCounts == old(itemCounts) && listItems == old(listItems)
      ensures itemCounts[cursorList] == 0 ==> cursorIdx == old(cursorIdx)
      ensures itemCounts[cursorList] > 0 ==> cursorIdx == (old(cursorIdx) + 1) % itemCounts[cursorList]
    {
      if itemCounts[cursorList] > 0 {
        cursorIdx := (cursorIdx + 1) % itemCounts[cursorList];
        ShowCursor();
      }
    }

    /** `_cursor_move_rt`: the next list, wrapping to the first. */
    method CursorMoveRt()
      requires Valid()
      modifies this
      ensures Valid() && itemCounts == old(itemCounts) && listItems == old(listItems)
      ensures cursorList == (old(cursorList) + 1) % |filters|
      ensures cursorIdx == Clamp(old(cursorIdx), itemCounts[cursorList])
    {
      cursorList := (cursorList + 1) % |filters|;
      ShowCursor();
    }

    /** `_cursor_move_lt`: the previous list; from the first, the last. */
    method CursorMoveLt()
      requires Valid()
      modifies this
      ensures Valid() && itemCounts == old(itemCounts) && listItems == old(listItems)
      ensures cursorList == (if old(cursorList) == 0 then |filters| - 1 else old(cursorList) - 1)
      ensures cursorIdx == Clamp(old(cursorIdx), itemCounts[cursorList])
    {
      cursorList := cursorList - 1;
      ShowCursor();
    }

    /** `_cursor_move_list` and `_cursor_move_index`: jump, then clamp. */
    method CursorMoveTo(lst: int, idx: int)
      requires Valid()
      modifies this
      ensures Valid() && itemCounts == old(itemCounts) && listItems == old(listItems)
      ensures cursorList == Clamp(lst, |filters|)
      ensures cursorIdx == Clamp(idx, itemCounts[cursorList])
    {
      cursorList, cursorIdx := lst, idx;
      ShowCursor();
    }

    /** `get_cursor_entry`: the to-do under the cursor, or None in an empty list. */
    method GetCursorEntry() returns (r: Option<Props>)
      requires Drawn()
      ensures r.None? <==> |listItems[cursorList]| == 0
      ensures r.Some? ==> r.value == listItems[cursorList][cursorIdx]
    {
      if |listItems[cursorList]| == 0 {
        return None;
      }
      r := Some(listItems[cursorList][cursorIdx]);
    }
  }
}
