/**
 * The admin sidebar: the navigation table, the active-item rule (exact match
 * for the dashboard, plain string prefix for the rest) and the rendered
 * links, with the staff link for super admins only.
 */
module AdminSidebar {
  import opened Common
  import Text

  datatype NavItem = NavItem(title: string, href: string, exact: bool)

  /** `navItems`, in display order. */
  function NavItems(): (items: seq<NavItem>)
    ensures |items| == 9
    ensures items[0] == NavItem("Dashboard", "/admin", true)
  {
    [ NavItem("Dashboard", "/admin", true),
      NavItem("Bookings", "/admin/bookings", false),
      NavItem("Rooms", "/admin/rooms", false),
      NavItem("Packages", "/admin/packages", false),
      NavItem("Gallery", "/admin/gallery", false),
      NavItem("Pricing", "/admin/pricing", false),
      NavItem("Enquiries", "/admin/enquiries", false),
      NavItem("Reports", "/admin/reports", false),
      NavItem("Settings", "/admin/settings", false) ]
  }

  /** `isActive(href, exact)`: equality when exact, otherwise `pathname.startsWith(href)`, with no segment-boundary check. */
  function IsActive(pathname: string, href: string, exact: bool): (r: bool)
    ensures exact ==> (r <==> pathname == href)
    ensures !exact ==> (r <==> |href| <= |pathname| && forall i :: 0 <= i < |href| ==> pathname[i] == href[i])
  {
    if exact then pathname == href else Text.StartsWith(pathname, href)
  }

  /** An exact match is also a prefix match. */
  lemma ExactImpliesPrefix(pathname: string, href: string)
    requires IsActive(pathname, href, true)
    ensures IsActive(pathname, href, false)
  {}

  /** The prefix rule has no segment boundary: a longer path that merely begins with an href still activates it. */
  lemma PrefixIgnoresSegments()
    ensures IsActive("/admin/roomsfoo", "/admin/rooms", false)
    ensures !IsActive("/admin/roomsfoo", "/admin", true)
  {
    assert "/admin/roomsfoo"[..|"/admin/rooms"|] == "/admin/rooms";
  }

  /** Two prefixes of one string are prefixes of each other, the shorter of the longer. */
  lemma PrefixesNest(p: string, a: string, b: string)
    requires Text.StartsWith(p, a) && Text.StartsWith(p, b) && |a| <= |b|
    ensures Text.StartsWith(b, a)
  {
    assert b[..|a|] == p[..|b|][..|a|] == p[..|a|];
  }

  /** The two characters after "/admin/" of each non-exact href, which tell them apart. */
  function HrefKeys(): seq<string> {
    ["bo", "ro", "pa", "ga", "pr", "en", "re", "se"]
  }

  lemma HrefKey(i: nat)
    requires 1 <= i < |NavItems()|
    ensures var h := NavItems()[i].href; |h| >= 9 && h[..7] == "/admin/" && h[7..9] == HrefKeys()[i - 1]
  {}

  /** Only the dashboard is exact; the other hrefs all extend "/admin/" and none is a prefix of another. */
  lemma NavTableShape()
    ensures forall i :: 0 <= i < |NavItems()| ==> (NavItems()[i].exact <==> i == 0)
    ensures forall i :: 1 <= i < |NavItems()| ==> Text.StartsWith(NavItems()[i].href, "/admin/")
    ensures forall i, j :: 1 <= i < |NavItems()| && 1 <= j < |NavItems()| && i != j ==>
      !Text.StartsWith(NavItems()[i].href, NavItems()[j].href)
  {
    var items := NavItems();
    forall i | 1 <= i < |items|
      ensures Text.StartsWith(items[i].href, "/admin/")
    {
      HrefKey(i);
    }
    forall i, j | 1 <= i < |items| && 1 <= j < |items| && i != j
      ensures !Text.StartsWith(items[i].href, items[j].href)
    {
      HrefKey(i);
      HrefKey(j);
      assert HrefKeys()[i - 1] != HrefKeys()[j - 1];
    }
  }

  /** For any path at most one item of the navigation table is active. */
  lemma AtMostOneActive(pathname: string, i: nat, j: nat)
    requires i < |NavItems()| && j < |NavItems()|
    requires IsActive(pathname, NavItems()[i].href, NavItems()[i].exact)
    requires IsActive(pathname, NavItems()[j].href, NavItems()[j].exact)
    ensures i == j
  {
    var items := NavItems();
    NavTableShape();
    if i != j {
      if i == 0 || j == 0 {
        // The dashboard is active only on "/admin" itself, shorter than every other href.
      } else if |items[i].href| <= |items[j].href| {
        PrefixesNest(pathname, items[i].href, items[j].href);
      } else {
        PrefixesNest(pathname, items[j].href, items[i].href);
      }
    }
  }

  /** A rendered link: its target and the label shown beside the icon, if any. */
  datatype Link = Link(href: string, caption: Option<string>)

  /** The sidebar's links: every nav item, then the staff link for super admins; labels only when expanded. */
  function Links(collapsed: bool, isSuperAdmin: bool): (links: seq<Link>)
    ensures |links| == |NavItems()| + (if isSuperAdmin then 1 else 0)
    ensures forall i :: 0 <= i < |NavItems()| ==> links[i].href == NavItems()[i].href
    ensures (exists i :: 0 <= i < |links| && links[i].href == "/admin/users") <==> isSuperAdmin
    ensures isSuperAdmin ==> links[|links| - 1] == Link("/admin/users", if collapsed then None else Some("Staff Management"))
    ensures forall i :: 0 <= i < |links| ==> (links[i].caption.Some? <==> !collapsed)
    ensures forall i :: 0 <= i < |NavItems()| && !collapsed ==> links[i].caption == Some(NavItems()[i].title)
  {
    var items := NavItems();
    var navLinks := seq(|items|, i requires 0 <= i < |items| =>
      Link(items[i].href, if collapsed then None else Some(items[i].title)));
    forall i | 0 <= i < |items| ensures navLinks[i].href != "/admin/users" {
      assert items[i].href != "/admin/users";
    }
    if isSuperAdmin then
      var links := navLinks + [Link("/admin/users", if collapsed then None else Some("Staff Management"))];
      assert links[|items|].href == "/admin/users";
      links
    else navLinks
  }
}
