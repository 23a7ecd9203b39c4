/**
 * The mobile bottom navigation (components/layout/bottom-nav.tsx): which item is highlighted
 * for the current path, and the pending-requests badge.
 */
module BottomNav {
  import opened Wrappers
  import opened Js

  /** The `href`s of `navItems`, in display order. */
  const NavHrefs: seq<string> := ["/dashboard", "/search", "/trips/new", "/people", "/connections"]

  /** `isActive` for one item. */
  predicate IsActive(pathname: string, href: string) {
    pathname == href || (href == "/dashboard" && pathname == "/dashboard")
    || (href != "/dashboard" && StartsWith(pathname, href))
  }

  /** Home is highlighted on its own path only; every other item on any path that starts with
      its `href`. */
  lemma ActiveRule(pathname: string, href: string)
    ensures href == "/dashboard" ==> (IsActive(pathname, href) <==> pathname == "/dashboard")
    ensures href != "/dashboard" ==> (IsActive(pathname, href) <==> StartsWith(pathname, href))
  {
    if pathname == href {
      assert pathname[..|href|] == href;
    }
  }

  /** There is no segment-boundary check: "/searching" highlights Search. */
  lemma NoSegmentBoundary()
    ensures IsActive("/searching", "/search")
    ensures !IsActive("/dashboard/x", "/dashboard")
  {
    assert "/searching"[..|"/search"|] == "/search";
  }

  /** The text of the badge on the item `href`, `None` when no badge is shown. */
  function Badge(href: string, pendingCount: int): (r: Option<string>)
    ensures r.Some? <==> href == "/connections" && pendingCount > 0
    ensures r.Some? && pendingCount > 9 ==> r.value == "9+"
    ensures r.Some? && pendingCount <= 9 ==> r.value == Decimal(pendingCount) && |r.value| == 1
  {
    if href == "/connections" && pendingCount > 0 then
      Some(if pendingCount > 9 then "9+" else Decimal(pendingCount))
    else None
  }
}
