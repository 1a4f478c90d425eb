/**
 * The admin shell (src/components/admin/admin-layout.tsx): the sidebar's
 * navigation with its active-item highlighting, the theme toggle and sign-out.
 */
module AdminLayout {
  import opened Wrappers
  import opened Text

  datatype NavItem = NavItem(name: string, href: string)

  /** The sidebar's items, in display order. */
  const NavItems: seq<NavItem> := [
    NavItem("Leads", "/admin/leads"),
    NavItem("Feedback", "/admin/feedback"),
    NavItem("Blog Posts", "/admin/blog")
  ]

  const LoginPath: string := "/admin/login"

  /** An item is highlighted on its own page and on every page below it, but
      not on a page whose path merely starts with the same letters. */
  predicate IsActive(path: string, href: string) {
    path == href || StartsWith(path, href + "/")
  }

  /** The highlighting rule spelled out on characters. */
  lemma ActiveMeans(path: string, href: string)
    ensures IsActive(path, href) <==>
      path == href || (|path| > |href| && path[..|href|] == href && path[|href|] == '/')
  {
    if |path| > |href| {
      assert (path[..|href| + 1] == href + "/") <==> (path[..|href|] == href && path[|href|] == '/');
    }
  }

  /** The editor of a post and the post list highlight "Blog Posts"; a path
      that only shares the letters does not. */
  lemma BlogHighlighting()
    ensures IsActive("/admin/blog", NavItems[2].href)
    ensures IsActive("/admin/blog/new", NavItems[2].href)
    ensures IsActive("/admin/blog/edit/x", NavItems[2].href)
    ensures !IsActive("/admin/blogs", NavItems[2].href)
    ensures !IsActive("/admin/login", NavItems[0].href)
  {
    ActiveMeans("/admin/blog/new", "/admin/blog");
    ActiveMeans("/admin/blog/edit/x", "/admin/blog");
    ActiveMeans("/admin/blogs", "/admin/blog");
    ActiveMeans("/admin/login", "/admin/leads");
  }

  /** An active item's href is a prefix of the path. */
  lemma ActiveIsPrefix(path: string, href: string)
    requires IsActive(path, href)
    ensures |href| <= |path| && path[..|href|] == href
  {
    ActiveMeans(path, href);
  }

  /** The indices of the sidebar items highlighted on `path`, in order. */
  function ActiveIndices(path: string): (r: seq<int>)
    ensures forall k :: 0 <= k < |r| ==> 0 <= r[k] < |NavItems| && IsActive(path, NavItems[r[k]].href)
    ensures forall i :: 0 <= i < |NavItems| && IsActive(path, NavItems[i].href) ==> i in r
  {
    (if IsActive(path, NavItems[0].href) then [0] else [])
    + (if IsActive(path, NavItems[1].href) then [1] else [])
    + (if IsActive(path, NavItems[2].href) then [2] else [])
  }

  /** The sidebar never highlights two items at once. */
  lemma OneHighlight(path: string)
    ensures |ActiveIndices(path)| <= 1
  {
    forall i | 0 <= i < |NavItems| && IsActive(path, NavItems[i].href)
      ensures |path| > 7 && path[7] == NavItems[i].href[7]
    {
      var h := NavItems[i].href;
      ActiveIsPrefix(path, h);
      assert h[7] == path[..|h|][7];
    }
  }

  /** The theme button: dark becomes light, anything else becomes dark. */
  function NextTheme(theme: string): (r: string)
    ensures r == "light" <==> theme == "dark"
    ensures r == "dark" <==> theme != "dark"
  {
    if theme == "dark" then "light" else "dark"
  }

  /** Two presses return to where a dark or light theme started. */
  lemma ThemeTwice(theme: string)
    requires theme == "dark" || theme == "light"
    ensures NextTheme(NextTheme(theme)) == theme
  {
  }

  /** The shell's own state: the current theme, the page it sits on, and
      where it sent the browser. */
  class Shell {
    var theme: string
    var pathname: string
    var redirect: Option<string>

    constructor (theme: string, pathname: string)
      ensures this.theme == theme && this.pathname == pathname && redirect.None?
    {
      this.theme := theme;
      this.pathname := pathname;
      redirect := None;
    }

    method ToggleTheme()
      modifies this`theme
      ensures theme == NextTheme(old(theme))
    {
      theme := NextTheme(theme);
    }

    /** `handleLogout`: sign out (the reply is not examined), then go to the
        login page. */
    method Logout()
      modifies this`redirect
      ensures redirect == Some(LoginPath)
      ensures pathname == old(pathname) && theme == old(theme)
    {
      redirect := Some(LoginPath);
    }
  }
}
