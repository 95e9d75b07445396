/**
 * The resume section toggler (`toggleSection`): a section's content element
 * and its caret icon are found by id, and their classes flipped. The page is
 * a map from element id to the element's classes.
 */
module Resume {
  import opened ClassList

  const Collapsed: string := "collapsed"
  const CaretDown: string := "fa-caret-down"
  const CaretUp: string := "fa-caret-up"

  function ContentId(sectionId: string): string { sectionId + "-content" }
  function IconId(sectionId: string): string { sectionId + "-icon" }

  /** The content and icon ids of a section are never the same element. */
  lemma IdsDiffer(sectionId: string)
    ensures ContentId(sectionId) != IconId(sectionId)
  {
    var c, i := ContentId(sectionId), IconId(sectionId);
    assert c[|sectionId| + 1] == 'c' && i[|sectionId| + 1] == 'i';
  }

  /** The icon after its two toggles. */
  function FlipCaret(cs: Classes): Classes
  {
    Toggle(Toggle(cs, CaretDown), CaretUp)
  }

  /** The page after `toggleSection(sectionId)`: when both elements exist,
      "collapsed" flips on the content and both carets flip on the icon;
      when either is missing, nothing changes. */
  function Toggled(page: map<string, Classes>, sectionId: string): (r: map<string, Classes>)
    ensures r.Keys == page.Keys
    ensures ContentId(sectionId) !in page || IconId(sectionId) !in page ==> r == page
    ensures forall id :: id in page && id != ContentId(sectionId) && id != IconId(sectionId) ==> r[id] == page[id]
  {
    var c, i := ContentId(sectionId), IconId(sectionId);
    if c !in page || i !in page then page
    else
      IdsDiffer(sectionId);
      page[c := Toggle(page[c], Collapsed)][i := FlipCaret(page[i])]
  }

  /** What one toggle does to the two elements: "collapsed" changes membership,
      an icon with exactly one caret ends with exactly the other, and every
      other class of either element stays as it was. */
  lemma ToggleEffect(page: map<string, Classes>, sectionId: string)
    requires ContentId(sectionId) in page && IconId(sectionId) in page
    ensures var r := Toggled(page, sectionId);
            var c, i := ContentId(sectionId), IconId(sectionId);
            && (Collapsed in r[c] <==> Collapsed !in page[c])
            && (CaretDown in page[i] && CaretUp !in page[i] ==> CaretUp in r[i] && CaretDown !in r[i])
            && (CaretUp in page[i] && CaretDown !in page[i] ==> CaretDown in r[i] && CaretUp !in r[i])
            && (forall x :: x != Collapsed ==> (x in r[c] <==> x in page[c]))
            && (forall x :: x != CaretDown && x != CaretUp ==> (x in r[i] <==> x in page[i]))
  {
    IdsDiffer(sectionId);
  }

  /** Toggling a section twice restores the page. */
  lemma ToggleTwice(page: map<string, Classes>, sectionId: string)
    ensures Toggled(Toggled(page, sectionId), sectionId) == page
  {
    IdsDiffer(sectionId);
    var c, i := ContentId(sectionId), IconId(sectionId);
    if c in page && i in page {
      ToggleInvolution(page[c], Collapsed);
      assert FlipCaret(FlipCaret(page[i])) == page[i];
    }
  }

  class Document {
    var elements: map<string, Classes>

    constructor (elements: map<string, Classes>)
      ensures this.elements == elements
    {
      this.elements := elements;
    }

    /** `toggleSection(sectionId)`. */
    method ToggleSection(sectionId: string)
      modifies this
      ensures elements == Toggled(old(elements), sectionId)
    {
      var content := ContentId(sectionId);
      var icon := IconId(sectionId);
      if content !in elements || icon !in elements {
        return;
      }
      IdsDiffer(sectionId);
      elements := elements[content := Toggle(elements[content], Collapsed)];
      elements := elements[icon := Toggle(elements[icon], CaretDown)];
      elements := elements[icon := Toggle(elements[icon], CaretUp)];
    }
  }
}
