/**
 * The public site's navigation bar (src/components/layout/navbar.tsx): six
 * links, the one for the current page highlighted, and a mobile menu that
 * closes whenever the route changes.
 */
module Navbar {
  datatype NavLink = NavLink(href: string, caption: string)

  /** The links, in display order. */
  const NavLinks: seq<NavLink> := [
    NavLink("/services", "Services"),
    NavLink("/case-studies", "Case Studies"),
    NavLink("/testimonials", "Testimonials"),
    NavLink("/blog", "Blog"),
    NavLink("/about", "About"),
    NavLink("/contact", "Contact")
  ]

  /** A link is highlighted only on exactly its own path. */
  predicate IsLinkActive(path: string, link: NavLink) {
    path == link.href
  }

  /** The indices of the highlighted links on `path`. */
  function ActiveLinks(path: string): (r: seq<int>)
    ensures forall k :: 0 <= k < |r| ==> 0 <= r[k] < |NavLinks| && IsLinkActive(path, NavLinks[r[k]])
    ensures forall i :: 0 <= i < |NavLinks| && IsLinkActive(path, NavLinks[i]) ==> i in r
  {
    ActiveFrom(path, 0)
  }

  function ActiveFrom(path: string, i: nat): (r: seq<int>)
    requires i <= |NavLinks|
    ensures forall k :: 0 <= k < |r| ==> i <= r[k] < |NavLinks| && IsLinkActive(path, NavLinks[r[k]])
    ensures forall j :: i <= j < |NavLinks| && IsLinkActive(path, NavLinks[j]) ==> j in r
    decreases |NavLinks| - i
  {
    if i == |NavLinks| then []
    else (if IsLinkActive(path, NavLinks[i]) then [i] else []) + ActiveFrom(path, i + 1)
  }

  /** No two links share an href. */
  lemma HrefsDistinct()
    ensures forall i, j :: 0 <= i < j < |NavLinks| ==> NavLinks[i].href != NavLinks[j].href
  {
    assert NavLinks[0].href[1] == 's' && NavLinks[1].href[1] == 'c';
    assert NavLinks[2].href[1] == 't' && NavLinks[3].href[1] == 'b';
    assert NavLinks[4].href[1] == 'a' && NavLinks[5].href[1] == 'c';
    assert |NavLinks[1].href| != |NavLinks[5].href|;
  }

  /** So on any path at most one link is highlighted. */
  lemma OneLinkActive(path: string, i: int, j: int)
    requires 0 <= i < |NavLinks| && 0 <= j < |NavLinks|
    requires IsLinkActive(path, NavLinks[i]) && IsLinkActive(path, NavLinks[j])
    ensures i == j
  {
    HrefsDistinct();
  }

  /** A page below a link's path (a service detail, say) highlights nothing,
      unlike the admin sidebar. */
  lemma SubpageHighlightsNothing()
    ensures ActiveLinks("/services/web-dev") == []
    ensures ActiveLinks("/services") == [0]
  {
    assert ActiveFrom("/services/web-dev", 6) == [];
    assert ActiveFrom("/services", 6) == [];
  }

  class NavBar {
    var isOpen: bool
    var pathname: string

    constructor (pathname: string)
      ensures !isOpen && this.pathname == pathname
    {
      isOpen := false;
      this.pathname := pathname;
    }

    /** The menu button flips the menu. */
    method ToggleMenu()
      modifies this`isOpen
      ensures isOpen == !old(isOpen)
    {
      isOpen := !isOpen;
    }

    /** A navigation. The effect keyed on the pathname closes the menu when
        the path changed; staying on the same path leaves it as it was. */
    method Navigate(path: string)
      modifies this
      ensures pathname == path
      ensures isOpen == (old(isOpen) && path == old(pathname))
    {
      if path != pathname {
        isOpen := false;
      }
      pathname := path;
    }
  }
}
