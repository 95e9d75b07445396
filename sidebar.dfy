/**
 * The sidebar loader: the shared navigation fragment is injected into the
 * placeholder, and the link naming the current page is marked "active".
 * Fetching the fragment and parsing its markup are not modelled: the outcome
 * arrives as the fragment's text together with the links it contains.
 */
module Sidebar {
  import opened Wrappers
  import opened Text
  import opened ClassList

  const DefaultPage: string := "index.html"
  const Active: string := "active"

  /** A `.sidebar a[href]` element: its `href` attribute and its classes. */
  datatype Link = Link(href: string, classes: Classes)

  /** A fetched fragment: its text and, once injected, its links in document order. */
  datatype Fragment = Fragment(html: string, links: seq<Link>)

  /** `pathname.split('/').pop() || 'index.html'`: the file name of the current
      page (the longest '/'-free suffix of the path), or "index.html" for a path
      that is empty or ends in '/'. It is never empty and never contains '/'. */
  function CurrentPage(pathname: string): (page: string)
    ensures page != "" && '/' !in page
    ensures pathname == "" || pathname[|pathname| - 1] == '/' ==> page == DefaultPage
    ensures pathname != "" && pathname[|pathname| - 1] != '/' ==>
              IsSuffix(page, pathname) && (|page| < |pathname| ==> pathname[|pathname| - |page| - 1] == '/')
  {
    LastPartIsLongestSuffix(pathname, '/');
    var last := LastPart(pathname, '/');
    if last != "" then last else DefaultPage
  }

  /** Links that are never marked: no target, an in-page anchor, or an absolute URL. */
  predicate Excluded(href: string)
    ensures StartsWith(href, "https://") ==> Excluded(href)
    ensures href != "" && href[0] != '#' && href[0] != 'h' ==> !Excluded(href)
  {
    href == "" || StartsWith(href, "#") || StartsWith(href, "http")
  }

  /** A link after the marking loop. */
  function Marked(link: Link, page: string): (r: Link)
    ensures r.href == link.href
    ensures Active in r.classes <==> Active in link.classes || (!Excluded(link.href) && link.href == page)
    ensures forall c :: c != Active ==> (c in r.classes <==> c in link.classes)
  {
    if !Excluded(link.href) && link.href == page then link.(classes := Force(link.classes, Active, true)) else link
  }

  function MarkedLinks(links: seq<Link>, page: string): (r: seq<Link>)
    ensures |r| == |links|
    ensures forall i :: 0 <= i < |links| ==> r[i] == Marked(links[i], page)
  {
    seq(|links|, i requires 0 <= i < |links| => Marked(links[i], page))
  }

  /** The loop only adds "active": an excluded or non-matching link is left
      exactly as it was, and a matching one gains "active" and keeps all its classes. */
  lemma MarkingOnlyAdds(links: seq<Link>, page: string, i: nat)
    requires i < |links|
    ensures links[i].classes <= MarkedLinks(links, page)[i].classes
    ensures Excluded(links[i].href) || links[i].href != page ==> MarkedLinks(links, page)[i] == links[i]
    ensures !Excluded(links[i].href) && links[i].href == page ==>
              MarkedLinks(links, page)[i].classes == links[i].classes + {Active}
  {
  }

  /** A link not already active becomes active exactly when its target, not
      excluded, equals the current page's file name; an excluded one never does. */
  lemma ActiveRule(link: Link, pathname: string)
    requires Active !in link.classes
    ensures Active in Marked(link, CurrentPage(pathname)).classes <==>
              !Excluded(link.href) && link.href == CurrentPage(pathname)
    ensures Excluded(link.href) ==> Active !in Marked(link, CurrentPage(pathname)).classes
  {
  }

  /** A link to a local page whose name starts with "http" is never marked,
      even on that page: the absolute-URL test is a plain prefix test. */
  lemma HttpNamedPageNeverActive(link: Link)
    requires link.href == "http-notes.html" && Active !in link.classes
    ensures CurrentPage("/http-notes.html") == link.href
    ensures Active !in Marked(link, CurrentPage("/http-notes.html")).classes
  {
    var p := "/http-notes.html";
    assert p[0] == '/' && forall i :: 1 <= i < |p| ==> p[i] != '/';
    assert StartsWith(link.href, "http");
  }

  /** On the start page, an "index.html" link is marked and an external one is not. */
  lemma IndexScenario(local: Link, external: Link)
    requires local.href == "index.html" && external.href == "https://external"
    requires Active !in external.classes
    ensures CurrentPage("/") == "index.html" && CurrentPage("") == "index.html"
    ensures Active in Marked(local, CurrentPage("/")).classes
    ensures Active !in Marked(external, CurrentPage("/")).classes
  {
    assert StartsWith(external.href, "http");
    assert local.href[0] == 'i';
    assert !Excluded(local.href);
  }

  class SidebarLoader {
    const hasPlaceholder: bool
    var content: string
    var links: seq<Link>

    constructor (hasPlaceholder: bool)
      ensures this.hasPlaceholder == hasPlaceholder && content == "" && links == []
    {
      this.hasPlaceholder := hasPlaceholder;
      content := "";
      links := [];
    }

    /** The load handler. Without a placeholder nothing happens; a failed fetch
      only logs. Otherwise the fragment's text replaces the placeholder's content
      and its links are marked. The response status is not checked, so an error
      page's text is injected like any other. */
    method Load(response: Option<Fragment>, pathname: string)
      modifies this
      ensures !hasPlaceholder || response.None? ==> content == old(content) && links == old(links)
      ensures hasPlaceholder && response.Some? ==>
                content == response.value.html && links == MarkedLinks(response.value.links, CurrentPage(pathname))
    {
      if !hasPlaceholder || response.None? {
        return;
      }
      content := response.value.html;
      links := response.value.links;
      var currentPage := CurrentPage(pathname);
      var i := 0;
      while i < |links|
        invariant 0 <= i <= |links| == |response.value.links|
        invariant forall k :: 0 <= k < i ==> links[k] == Marked(response.value.links[k], currentPage)
        invariant forall k :: i <= k < |links| ==> links[k] == response.value.links[k]
        invariant content == response.value.html
      {
        var href := links[i].href;
        if !(href == "" || StartsWith(href, "#") || StartsWith(href, "http")) && href == currentPage {
          links := links[i := links[i].(classes := Force(links[i].classes, Active, true))];
        }
        i := i + 1;
      }
    }
  }
}
