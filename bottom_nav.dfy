/**
 * The bottom navigation bar (src/components/ui/BottomNav.tsx): which items
 * a role sees, the list shown while the role is loading, and which item is
 * highlighted for the current path.
 */
module BottomNav {
  import opened Wrappers
  import opened Schema

  /** A navigation item; its icon is presentation and left out. */
  datatype NavItem = NavItem(id: string, title: string, href: string)

  const HOME: NavItem := NavItem("home", "STATIONS", "/")
  const CONTRIBUTE: NavItem := NavItem("contribute", "CONTRIBUER", "/contribute")
  const MANAGER: NavItem := NavItem("manager", "GÉRER", "/manager")
  const REPORTER: NavItem := NavItem("reporter", "RAPPORTER", "/trusted")
  const PROFILE: NavItem := NavItem("profile", "PROFIL", "/profile")

  /** The list shown while the role is still loading. */
  const LOADING_ITEMS: seq<NavItem> := [HOME, CONTRIBUTE, PROFILE]

  predicate IsKnownItem(item: NavItem) {
    item == HOME || item == CONTRIBUTE || item == MANAGER || item == REPORTER || item == PROFILE
  }

  predicate DistinctIds(items: seq<NavItem>) {
    forall i, j :: 0 <= i < j < |items| ==> items[i].id != items[j].id
  }

  /** `thirdNavItem`: the role's own page, for a station manager or a trusted reporter only. */
  function ThirdItem(userRole: Option<string>): (r: Option<NavItem>)
    ensures r == Some(MANAGER) <==> userRole == Some(RoleName(StationManager))
    ensures r == Some(REPORTER) <==> userRole == Some(RoleName(TrustedReporter))
    ensures r.None? <==> userRole != Some(RoleName(StationManager)) && userRole != Some(RoleName(TrustedReporter))
  {
    if userRole == Some(RoleName(StationManager)) then Some(MANAGER)
    else if userRole == Some(RoleName(TrustedReporter)) then Some(REPORTER)
    else None
  }

  /**
   * `navItems`, built by successive pushes: home first and profile last,
   * contribute for everyone but a trusted reporter, and the role's own page
   * in between; a role without one sees exactly the loading list.
   */
  method BuildNavItems(userRole: Option<string>) returns (navItems: seq<NavItem>)
    ensures |navItems| == if userRole == Some(RoleName(StationManager)) then 4 else 3
    ensures navItems[0] == HOME && navItems[|navItems| - 1] == PROFILE
    ensures CONTRIBUTE in navItems <==> userRole != Some(RoleName(TrustedReporter))
    ensures MANAGER in navItems <==> userRole == Some(RoleName(StationManager))
    ensures REPORTER in navItems <==> userRole == Some(RoleName(TrustedReporter))
    ensures forall x :: x in navItems ==> IsKnownItem(x)
    ensures DistinctIds(navItems)
    ensures ThirdItem(userRole).None? ==> navItems == LOADING_ITEMS
  {
    navItems := [HOME];
    if userRole != Some(RoleName(TrustedReporter)) {
      navItems := navItems + [CONTRIBUTE];
    }
    var third := ThirdItem(userRole);
    if third.Some? {
      navItems := navItems + [third.value];
    }
    navItems := navItems + [PROFILE];
  }

  predicate StartsWith(s: string, prefix: string) { prefix <= s }

  /** The highlight rule once the role is known: the item's own path, or a path under its section. */
  predicate IsItemActive(item: NavItem, pathname: string) {
    pathname == item.href ||
    (item.href == "/" && pathname == "/") ||
    (item.id == "manager" && StartsWith(pathname, "/manager")) ||
    (item.id == "reporter" && StartsWith(pathname, "/trusted")) ||
    (item.id == "contribute" && StartsWith(pathname, "/contribute"))
  }

  /** The highlight rule while loading: the item's own path only. */
  predicate IsLoadingItemActive(item: NavItem, pathname: string) {
    pathname == item.href || (item.href == "/" && pathname == "/")
  }

  /** An item highlighted while loading stays highlighted once the role is known. */
  lemma LoadingActiveStaysActive(item: NavItem, pathname: string)
    requires IsLoadingItemActive(item, pathname)
    ensures IsItemActive(item, pathname)
  {
  }

  /** The item is highlighted on its own path, and a section item on every path under it. */
  lemma ActiveOnOwnSection(item: NavItem, pathname: string)
    requires IsKnownItem(item)
    ensures pathname == item.href ==> IsItemActive(item, pathname)
    ensures item != HOME && item != PROFILE && StartsWith(pathname, item.href) ==> IsItemActive(item, pathname)
  {
  }

  /** A highlighted home item means the root path; any other item means a path whose second character is its own. */
  lemma ActivePathShape(item: NavItem, pathname: string)
    requires IsKnownItem(item) && IsItemActive(item, pathname)
    ensures item == HOME ==> pathname == "/"
    ensures item != HOME ==> |pathname| >= 2 && pathname[1] == item.href[1]
  {
  }

  /** Two different known items are never highlighted for the same path. */
  lemma ActiveItemsDisjoint(a: NavItem, b: NavItem, pathname: string)
    requires IsKnownItem(a) && IsKnownItem(b) && a.id != b.id
    ensures !(IsItemActive(a, pathname) && IsItemActive(b, pathname))
  {
    if IsItemActive(a, pathname) && IsItemActive(b, pathname) {
      ActivePathShape(a, pathname);
      ActivePathShape(b, pathname);
    }
  }

  /** At most one item of a bar is highlighted, whatever the path. */
  lemma AtMostOneActive(items: seq<NavItem>, pathname: string, i: nat, j: nat)
    requires forall x :: x in items ==> IsKnownItem(x)
    requires DistinctIds(items) && i < j < |items|
    ensures !(IsItemActive(items[i], pathname) && IsItemActive(items[j], pathname))
  {
    assert items[i] in items && items[j] in items;
    ActiveItemsDisjoint(items[i], items[j], pathname);
  }
}
