/**
 * The desktop sidebar (components/layout/desktop-sidebar.tsx): which items are highlighted for
 * the current path, the profile link, and the pending-requests badge.
 */
module DesktopSidebar {
  import opened Wrappers
  import opened Js

  /** The `href`s of `navItems`, in display order. */
  const NavHrefs: seq<string> := ["/dashboard", "/search", "/trips/new", "/trips", "/people", "/connections"]

  /** `isActive` for one item: "/dashboard" and "/trips/new" on an exact match only. */
  predicate IsActive(pathname: string, href: string) {
    pathname == href || (href != "/dashboard" && href != "/trips/new" && StartsWith(pathname, href))
  }

  /** `isProfileActive` */
  predicate IsProfileActive(pathname: string) {
    pathname == "/profile" || StartsWith(pathname, "/profile")
  }

  lemma ActiveRule(pathname: string, href: string)
    ensures (href == "/dashboard" || href == "/trips/new") ==> (IsActive(pathname, href) <==> pathname == href)
    ensures (href != "/dashboard" && href != "/trips/new") ==> (IsActive(pathname, href) <==> StartsWith(pathname, href))
  {
    if pathname == href {
      assert pathname[..|href|] == href;
    }
  }

  /** The profile link is highlighted exactly on paths starting with "/profile". */
  lemma ProfileRule(pathname: string)
    ensures IsProfileActive(pathname) <==> StartsWith(pathname, "/profile")
  {
    if pathname == "/profile" {
      assert pathname[..|"/profile"|] == "/profile";
    }
  }

  /** On "/trips/new" both "Add Trip" and "My Trips" are highlighted. */
  lemma TwoItemsOnNewTrip()
    ensures IsActive("/trips/new", "/trips/new") && IsActive("/trips/new", "/trips")
    ensures !IsActive("/trips", "/trips/new")
  {
    assert "/trips/new"[..|"/trips"|] == "/trips";
  }

  /** The badge on the item `href`: the raw count, with no "9+" cap, only for a positive count. */
  function Badge(href: string, pendingCount: int): (r: Option<string>)
    ensures r.Some? <==> href == "/connections" && pendingCount > 0
    ensures r.Some? ==> r.value == Decimal(pendingCount) && DigitsValue(r.value) == pendingCount
  {
    if href == "/connections" && pendingCount > 0 then
      DecimalRoundTrip(pendingCount);
      Some(Decimal(pendingCount))
    else None
  }
}
