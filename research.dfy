/**
 * The publication filter: category buttons that show or hide publication items
 * and section headings by setting the "is-hidden" class. After a click, only
 * the clicked button is marked "active"; loading leaves the buttons' classes as
 * they were. Elements are values holding an attribute and a class set;
 * the filter's lists are fields that its methods reassign.
 */
module Research {
  import opened Wrappers
  import opened ClassList

  const Hidden: string := "is-hidden"
  const Active: string := "active"
  /** The filter that shows everything. */
  const All: Option<string> := Some("all")

  /** An element: its `data-category` (items, headings) or `data-filter`
      (buttons) attribute, `None` when the attribute is missing, and its classes. */
  datatype Element = Element(attr: Option<string>, classes: Classes)

  /** An item of this category is shown under filter `f`. */
  predicate ShowItem(category: Option<string>, f: Option<string>)
  {
    f == All || category == f
  }

  /** An item after `applyFilter(f)`: hidden exactly when not shown, whatever it was before. */
  function FilteredItem(item: Element, f: Option<string>): (r: Element)
    ensures r.attr == item.attr
    ensures Hidden in r.classes <==> f != All && item.attr != f
    ensures forall c :: c != Hidden ==> (c in r.classes <==> c in item.classes)
  {
    item.(classes := Force(item.classes, Hidden, !ShowItem(item.attr, f)))
  }

  function FilteredItems(items: seq<Element>, f: Option<string>): (r: seq<Element>)
    ensures |r| == |items|
    ensures forall i :: 0 <= i < |items| ==> r[i] == FilteredItem(items[i], f)
  {
    seq(|items|, i requires 0 <= i < |items| => FilteredItem(items[i], f))
  }

  /** The `matchingItems` filter of `updateSectionVisibility` for a heading of `category`. */
  predicate Matches(item: Element, f: Option<string>, category: Option<string>)
    ensures Matches(item, f, category) ==> item.attr == category
    ensures f != All && category != f ==> !Matches(item, f, category)
  {
    if f == All then item.attr == category else item.attr == f && category == f
  }

  /** `Array.from(publicationItems).filter(...)`. */
  function MatchingItems(items: seq<Element>, f: Option<string>, category: Option<string>): (r: seq<Element>)
    ensures |r| <= |items|
    decreases |items|
  {
    if items == [] then []
    else
      var rest := MatchingItems(items[1..], f, category);
      if Matches(items[0], f, category) then [items[0]] + rest else rest
  }

  /** The filter keeps nothing exactly when no item matches. */
  lemma {:induction false} MatchingEmptyIff(items: seq<Element>, f: Option<string>, category: Option<string>)
    ensures |MatchingItems(items, f, category)| == 0 <==>
            forall i :: 0 <= i < |items| ==> !Matches(items[i], f, category)
    decreases |items|
  {
    if items != [] {
      MatchingEmptyIff(items[1..], f, category);
      assert forall i :: 1 <= i < |items| ==> items[i] == items[1..][i - 1];
    }
  }

  /** A heading after `updateSectionVisibility(f)` given the items. */
  function HeadingAfter(h: Element, items: seq<Element>, f: Option<string>): (r: Element)
    ensures r.attr == h.attr
    ensures forall c :: c != Hidden ==> (c in r.classes <==> c in h.classes)
  {
    if f == All then h.(classes := Force(h.classes, Hidden, false))
    else h.(classes := Force(h.classes, Hidden, |MatchingItems(items, f, h.attr)| == 0))
  }

  function HeadingsAfter(headings: seq<Element>, items: seq<Element>, f: Option<string>): (r: seq<Element>)
    ensures |r| == |headings|
    ensures forall i :: 0 <= i < |headings| ==> r[i] == HeadingAfter(headings[i], items, f)
  {
    seq(|headings|, i requires 0 <= i < |headings| => HeadingAfter(headings[i], items, f))
  }

  /** Under "all" every heading is visible; under any other filter a heading is
      visible exactly when it is that filter's heading and some item has that category. */
  lemma HeadingVisibility(h: Element, items: seq<Element>, f: Option<string>)
    ensures f == All ==> Hidden !in HeadingAfter(h, items, f).classes
    ensures f != All ==>
              (Hidden !in HeadingAfter(h, items, f).classes <==>
               h.attr == f && exists i :: 0 <= i < |items| && items[i].attr == f)
  {
    MatchingEmptyIff(items, f, h.attr);
  }

  /** Filtering leaves every item's category in place, so the headings see the
      same categories before and after. */
  lemma FilterKeepsCategories(headings: seq<Element>, items: seq<Element>, f: Option<string>, g: Option<string>)
    ensures HeadingsAfter(headings, FilteredItems(items, g), f) == HeadingsAfter(headings, items, f)
  {
    forall i | 0 <= i < |headings|
      ensures HeadingsAfter(headings, FilteredItems(items, g), f)[i] == HeadingsAfter(headings, items, f)[i]
    {
      MatchingSameAttrs(FilteredItems(items, g), items, f, headings[i].attr);
    }
  }

  lemma {:induction false} MatchingSameAttrs(xs: seq<Element>, ys: seq<Element>, f: Option<string>, category: Option<string>)
    requires |xs| == |ys| && forall i :: 0 <= i < |xs| ==> xs[i].attr == ys[i].attr
    ensures |MatchingItems(xs, f, category)| == |MatchingItems(ys, f, category)|
    decreases |xs|
  {
    if xs != [] {
      MatchingSameAttrs(xs[1..], ys[1..], f, category);
    }
  }

  /** The filter state is forced, not flipped: applying `f` after any earlier
      filter `g` gives what applying `f` alone gives, and applying it twice is
      the same as once. */
  lemma FilterForgetsHistory(items: seq<Element>, headings: seq<Element>, f: Option<string>, g: Option<string>)
    ensures FilteredItems(FilteredItems(items, g), f) == FilteredItems(items, f)
    ensures HeadingsAfter(HeadingsAfter(headings, items, g), items, f) == HeadingsAfter(headings, items, f)
  {
    assert forall i :: 0 <= i < |items| ==>
      FilteredItems(FilteredItems(items, g), f)[i] == FilteredItems(items, f)[i];
    assert forall i :: 0 <= i < |headings| ==>
      HeadingsAfter(HeadingsAfter(headings, items, g), items, f)[i] == HeadingsAfter(headings, items, f)[i];
  }

  /** The buttons after a click on button `b`: only `b` carries "active". */
  function Activated(buttons: seq<Element>, b: nat): (r: seq<Element>)
    requires b < |buttons|
    ensures |r| == |buttons|
    ensures forall i :: 0 <= i < |buttons| ==> r[i].attr == buttons[i].attr
    ensures forall i :: 0 <= i < |buttons| ==> (Active in r[i].classes <==> i == b)
    ensures forall i, c :: 0 <= i < |buttons| && c != Active ==> (c in r[i].classes <==> c in buttons[i].classes)
  {
    seq(|buttons|, i requires 0 <= i < |buttons| =>
      buttons[i].(classes := Force(buttons[i].classes, Active, i == b)))
  }

  class PublicationFilter {
    var buttons: seq<Element>
    var items: seq<Element>
    var headings: seq<Element>
    /** Whether the click handlers were installed. */
    var installed: bool

    constructor (buttons: seq<Element>, items: seq<Element>, headings: seq<Element>)
      ensures this.buttons == buttons && this.items == items && this.headings == headings
      ensures !installed
    {
      this.buttons := buttons;
      this.items := items;
      this.headings := headings;
      this.installed := false;
    }

    /** `updateSectionVisibility(activeFilter)`. */
    method UpdateSectionVisibility(f: Option<string>)
      modifies this`headings
      ensures headings == HeadingsAfter(old(headings), items, f)
    {
      if |headings| == 0 {
        return;
      }
      var i := 0;
      while i < |headings|
        invariant 0 <= i <= |headings| == |old(headings)|
        invariant forall k :: 0 <= k < i ==> headings[k] == HeadingAfter(old(headings)[k], items, f)
        invariant forall k :: i <= k < |headings| ==> headings[k] == old(headings)[k]
      {
        var heading := headings[i];
        var matching := MatchingItems(items, f, heading.attr);
        if f == All {
          headings := headings[i := heading.(classes := Force(heading.classes, Hidden, false))];
        } else {
          headings := headings[i := heading.(classes := Force(heading.classes, Hidden, |matching| == 0))];
        }
        i := i + 1;
      }
    }

    /** `applyFilter(activeFilter)`. */
    method ApplyFilter(f: Option<string>)
      modifies this`items, this`headings
      ensures items == FilteredItems(old(items), f)
      ensures headings == HeadingsAfter(old(headings), items, f)
    {
      var i := 0;
      while i < |items|
        invariant 0 <= i <= |items| == |old(items)|
        invariant forall k :: 0 <= k < i ==> items[k] == FilteredItem(old(items)[k], f)
        invariant forall k :: i <= k < |items| ==> items[k] == old(items)[k]
        invariant headings == old(headings)
      {
        var item := items[i];
        var shouldShow := f == All || item.attr == f;
        items := items[i := item.(classes := Force(item.classes, Hidden, !shouldShow))];
        i := i + 1;
      }
      UpdateSectionVisibility(f);
    }

    /** The click handler of button `b`: "active" moves to `b`, then its filter is applied. */
    method Click(b: nat)
      requires installed && b < |buttons|
      modifies this
      ensures buttons == Activated(old(buttons), b)
      ensures items == FilteredItems(old(items), old(buttons)[b].attr)
      ensures headings == HeadingsAfter(old(headings), items, old(buttons)[b].attr)
      ensures installed
    {
      var i := 0;
      while i < |buttons|
        invariant 0 <= i <= |buttons| == |old(buttons)|
        invariant forall k :: 0 <= k < i ==>
                    buttons[k] == old(buttons)[k].(classes := Force(old(buttons)[k].classes, Active, false))
        invariant forall k :: i <= k < |buttons| ==> buttons[k] == old(buttons)[k]
        invariant items == old(items) && headings == old(headings) && installed == old(installed)
      {
        buttons := buttons[i := buttons[i].(classes := Force(buttons[i].classes, Active, false))];
        i := i + 1;
      }
      buttons := buttons[b := buttons[b].(classes := Force(buttons[b].classes, Active, true))];
      assert forall k :: 0 <= k < |buttons| ==> buttons[k] == Activated(old(buttons), b)[k];
      ApplyFilter(buttons[b].attr);
    }

    /** The load step: with no buttons or no items nothing happens and no
      handler is installed; otherwise the handlers are installed and the
      filter "all" is applied. */
    method Init()
      modifies this
      ensures buttons == old(buttons)
      ensures old(buttons) == [] || old(items) == [] ==>
                items == old(items) && headings == old(headings) && installed == old(installed)
      ensures old(buttons) != [] && old(items) != [] ==>
                installed && items == FilteredItems(old(items), All) && headings == HeadingsAfter(old(headings), items, All)
    {
      if |buttons| == 0 || |items| == 0 {
        return;
      }
      installed := true;
      ApplyFilter(All);
    }
  }

  /** After loading, no item and no heading is hidden. */
  lemma InitShowsEverything(items: seq<Element>, headings: seq<Element>)
    ensures forall i :: 0 <= i < |items| ==> Hidden !in FilteredItems(items, All)[i].classes
    ensures forall i :: 0 <= i < |headings| ==> Hidden !in HeadingsAfter(headings, items, All)[i].classes
  {
  }

  /** Under a filter other than "all", an item is hidden exactly when its category differs. */
  lemma ItemVisibility(items: seq<Element>, f: Option<string>, i: nat)
    requires i < |items|
    ensures Hidden in FilteredItems(items, f)[i].classes <==> f != All && items[i].attr != f
  {
  }
}
