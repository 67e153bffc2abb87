/**
 The menu tabs (script.js lines 167-186). Clicking a tab makes it the only
 active tab and shows each menu item whose category equals the tab's, or
 every item when the tab's category is `all`. Categories come from
 `data-category` attributes, which may be missing; a missing attribute reads
 as `undefined`, and `undefined === undefined` holds, so a tab without a
 category shows exactly the items without one.
 */
module MenuFilter {
  import opened Marks

  /** A `data-category` attribute: its text, or absent (`undefined`). */
  datatype Attr = Present(text: string) | Absent

  const All: string := "all"

  /** The test of script.js line 179. */
  predicate Shows(selected: Attr, category: Attr) {
    selected == Present(All) || category == selected
  }

  /** The tab and item state after a click. */
  datatype Menu = Menu(activeTabs: seq<bool>, shown: seq<bool>)

  /** Decides the display of every item, in document order. */
  method ApplyFilter(selected: Attr, items: seq<Attr>) returns (shown: seq<bool>)
    ensures |shown| == |items|
    ensures forall k :: 0 <= k < |items| ==>
      (shown[k] <==> selected == Present(All) || items[k] == selected)
  {
    shown := [];
    var k := 0;
    while k < |items|
      invariant 0 <= k <= |items|
      invariant |shown| == k
      invariant forall j :: 0 <= j < k ==> (shown[j] <==> Shows(selected, items[j]))
    {
      var show := selected == Present(All) || items[k] == selected;
      shown := shown + [show];
      k := k + 1;
    }
  }

  /** The click handler of tab `t`. */
  method ClickTab(tabs: seq<Attr>, items: seq<Attr>, t: nat) returns (m: Menu)
    requires t < |tabs|
    ensures m.activeTabs == MarkOnly(|tabs|, t)
    ensures |m.shown| == |items|
    ensures forall k :: 0 <= k < |items| ==> (m.shown[k] <==> Shows(tabs[t], items[k]))
    ensures CountMarked(m.activeTabs) == 1
    ensures tabs[t] == Present(All) ==> CountMarked(m.shown) == |items|
    ensures tabs[t] != Present(All) ==> CountMarked(m.shown) == CountTagged(tabs[t], items)
  {
    var shown := ApplyFilter(tabs[t], items);
    m := Menu(MarkOnly(|tabs|, t), shown);
    ExactlyOneMarked(|tabs|, t);
    ShownFlagsCount(tabs[t], items, shown);
    if tabs[t] == Present(All) {
      AllShowsEverything(items);
    } else {
      OtherTabShowsItsCategory(tabs[t], items);
    }
  }

  /** The number of items a selection shows. */
  function CountShown(selected: Attr, items: seq<Attr>): nat {
    if |items| == 0 then 0
    else (if Shows(selected, items[0]) then 1 else 0) + CountShown(selected, items[1..])
  }

  /** The number of items carrying `category`. */
  function CountTagged(category: Attr, items: seq<Attr>): nat {
    if |items| == 0 then 0
    else (if items[0] == category then 1 else 0) + CountTagged(category, items[1..])
  }

  /** The `all` tab shows every item. */
  lemma {:induction false} AllShowsEverything(items: seq<Attr>)
    ensures CountShown(Present(All), items) == |items|
    decreases |items|
  {
    if |items| > 0 {
      AllShowsEverything(items[1..]);
    }
  }

  /** Any other tab shows exactly the items of its own category. */
  lemma {:induction false} OtherTabShowsItsCategory(selected: Attr, items: seq<Attr>)
    requires selected != Present(All)
    ensures CountShown(selected, items) == CountTagged(selected, items)
    decreases |items|
  {
    if |items| > 0 {
      OtherTabShowsItsCategory(selected, items[1..]);
    }
  }

  /** Display flags that follow the filter test count the items it passes. */
  lemma {:induction false} ShownFlagsCount(selected: Attr, items: seq<Attr>, shown: seq<bool>)
    requires |shown| == |items|
    requires forall k :: 0 <= k < |items| ==> (shown[k] <==> Shows(selected, items[k]))
    ensures CountMarked(shown) == CountShown(selected, items)
    decreases |items|
  {
    if |items| > 0 {
      assert forall k :: 0 <= k < |items| - 1 ==> items[1..][k] == items[k + 1] && shown[1..][k] == shown[k + 1];
      ShownFlagsCount(selected, items[1..], shown[1..]);
    }
  }
}
