/** The sidebar: which top-level item is active, which sub-entry, and which
    groups are expanded, kept in step with clicks and with the current
    route. */
module SidebarNav {
  import opened Text
  import opened SidebarLinkView

  /** The menu the sidebar shows: eight route links. */
  const MenuItems: seq<MenuItem> := [
    MenuItem("userManagements", "User Managements", "link", Some("/user-managements"), Absent),
    MenuItem("EmailManagements", "Email Managements", "link", Some("/email-managements"), Absent),
    MenuItem("ProductManagements", "Product Managements", "link", Some("/product-managements"), Absent),
    MenuItem("AddProduct", "Add Product", "link", Some("/add-product"), Absent),
    MenuItem("AddProperties", "Add Properties", "link", Some("/add-properties"), Absent),
    MenuItem("TransactionManagements", "Transaction Managements", "link", Some("/transaction-managements"), Absent),
    MenuItem("OrderManagements", "Order Managements", "link", Some("/order-managements"), Absent),
    MenuItem("Configuration", "Configuration", "link", Some("/configuration"), Absent)
  ]

  /** Every item of the menu passes both prop checks. */
  lemma MenuItemsAccepted()
    ensures forall k :: 0 <= k < |MenuItems| ==> PathError(MenuItems[k]).None? && SubmenusVerdict(MenuItems[k]).None?
  {
  }

  /** `collapsedItems[id] || false`: an id with no entry reads as folded. */
  function CollapsedFlag(collapsed: map<string, bool>, id: string): (r: bool)
    ensures id !in collapsed ==> !r
    ensures id in collapsed ==> r == collapsed[id]
  {
    id in collapsed && collapsed[id]
  }

  /** `{ ...prev, [id]: !prev[id] }`: the entry of `id` is flipped (a missing
      entry becomes true) and no other entry changes. */
  function Flip(collapsed: map<string, bool>, id: string): (r: map<string, bool>)
    ensures id in r && CollapsedFlag(r, id) == !CollapsedFlag(collapsed, id)
    ensures forall k :: k != id ==> (k in r <==> k in collapsed)
    ensures forall k :: k != id && k in collapsed ==> r[k] == collapsed[k]
  {
    collapsed[id := !CollapsedFlag(collapsed, id)]
  }

  /** Flipping the same entry twice reads the same as not flipping it. */
  lemma FlipTwice(collapsed: map<string, bool>, id: string)
    ensures forall k :: CollapsedFlag(Flip(Flip(collapsed, id), id), k) == CollapsedFlag(collapsed, k)
  {
    forall k ensures CollapsedFlag(Flip(Flip(collapsed, id), id), k) == CollapsedFlag(collapsed, k) {
      if k == id {
        assert CollapsedFlag(Flip(collapsed, id), id) == !CollapsedFlag(collapsed, id);
      }
    }
  }

  /** The sidebar's state: `activeState` and `collapsedItems`. */
  datatype NavState = NavState(activeLink: Option<string>, activeSubMenu: Option<string>, collapsed: map<string, bool>)

  /** An item the route effect treats as the current route: a group one of
      whose sub-entries has the pathname, or any other item whose own path
      is the pathname. */
  predicate Matches(item: MenuItem, pathname: string)
  {
    if item.itemType == "collapse" then SomeEntryAt(item.submenus, pathname) else item.path == Some(pathname)
  }

  /** One iteration of the route effect's `forEach`. A matching group
      becomes active, records the pathname as its sub-entry and is expanded;
      another matching item becomes active with no sub-entry. */
  function RouteStep(item: MenuItem, pathname: string, s: NavState): NavState
  {
    if !Matches(item, pathname) then s
    else if item.itemType == "collapse" then NavState(Some(item.id), Some(pathname), s.collapsed[item.id := true])
    else NavState(Some(item.id), None, s.collapsed)
  }

  /** The route effect over a list of items, in order. */
  function RouteSync(items: seq<MenuItem>, pathname: string, s: NavState): NavState
    decreases |items|
  {
    if |items| == 0 then s
    else RouteStep(items[|items| - 1], pathname, RouteSync(items[..|items| - 1], pathname, s))
  }

  /** When no item matches the route, the effect changes nothing. */
  lemma {:induction false} RouteSyncNoMatch(items: seq<MenuItem>, pathname: string, s: NavState)
    requires forall j :: 0 <= j < |items| ==> !Matches(items[j], pathname)
    ensures RouteSync(items, pathname, s) == s
    decreases |items|
  {
    if |items| > 0 {
      RouteSyncNoMatch(items[..|items| - 1], pathname, s);
    }
  }

  /** The last matching item wins: it is the active one, with the pathname
      as its sub-entry when it is a group and none otherwise. */
  lemma {:induction false} RouteSyncLastMatch(items: seq<MenuItem>, pathname: string, s: NavState, k: nat)
    requires k < |items| && Matches(items[k], pathname)
    requires forall j :: k < j < |items| ==> !Matches(items[j], pathname)
    ensures RouteSync(items, pathname, s).activeLink == Some(items[k].id)
    ensures RouteSync(items, pathname, s).activeSubMenu == if items[k].itemType == "collapse" then Some(pathname) else None
    decreases |items|
  {
    if k < |items| - 1 {
      var init := items[..|items| - 1];
      assert forall j :: k < j < |init| ==> init[j] == items[j];
      RouteSyncLastMatch(init, pathname, s, k);
    }
  }

  /** On the route of any menu entry, the effect makes that entry the
      active one, with no sub-entry: the menu's paths are distinct. */
  lemma MenuRouteActivates(s: NavState, k: nat)
    requires k < |MenuItems|
    ensures RouteSync(MenuItems, MenuItems[k].path.value, s).activeLink == Some(MenuItems[k].id)
    ensures RouteSync(MenuItems, MenuItems[k].path.value, s).activeSubMenu.None?
  {
    RouteSyncLastMatch(MenuItems, MenuItems[k].path.value, s, k);
  }

  /** Some matching group of `items` has the id `id`. */
  predicate ExpandedByRoute(items: seq<MenuItem>, pathname: string, id: string)
  {
    exists j :: 0 <= j < |items| && items[j].itemType == "collapse" && Matches(items[j], pathname) && items[j].id == id
  }

  /** After the effect, a group is expanded exactly when it was expanded
      before or it matches the route; no entry is ever folded. */
  lemma {:induction false} RouteSyncExpands(items: seq<MenuItem>, pathname: string, s: NavState, id: string)
    ensures CollapsedFlag(RouteSync(items, pathname, s).collapsed, id)
      <==> CollapsedFlag(s.collapsed, id) || ExpandedByRoute(items, pathname, id)
    decreases |items|
  {
    if |items| > 0 {
      var init := items[..|items| - 1];
      var last := items[|items| - 1];
      RouteSyncExpands(init, pathname, s, id);
      if ExpandedByRoute(init, pathname, id) {
        var j :| 0 <= j < |init| && init[j].itemType == "collapse" && Matches(init[j], pathname) && init[j].id == id;
        assert items[j] == init[j];
      }
      if ExpandedByRoute(items, pathname, id) {
        var j :| 0 <= j < |items| && items[j].itemType == "collapse" && Matches(items[j], pathname) && items[j].id == id;
        if j < |init| {
          assert init[j] == items[j];
        }
      }
    }
  }

  /** The sidebar component's state. */
  class Sidebar {
    const items: seq<MenuItem>
    var activeLink: Option<string>
    var activeSubMenu: Option<string>
    var collapsed: map<string, bool>

    /** Nothing active and every group folded. */
    constructor(items: seq<MenuItem>)
      ensures this.items == items && activeLink.None? && activeSubMenu.None? && collapsed == map[]
    {
      this.items := items;
      activeLink := None;
      activeSubMenu := None;
      collapsed := map[];
    }

    function State(): NavState
      reads this
    {
      NavState(activeLink, activeSubMenu, collapsed)
    }

    /** `isCollapsed` as passed to the entry of `id`. */
    function IsCollapsed(id: string): bool
      reads this
    {
      CollapsedFlag(collapsed, id)
    }

    /** `handleMainLinkClick`: a link other than the active one becomes
        active with no sub-entry and its entry is flipped; clicking the
        active link changes nothing. */
    method MainLinkClick(id: string)
      modifies this`activeLink, this`activeSubMenu, this`collapsed
      ensures old(activeLink) == Some(id) ==> State() == old(State())
      ensures old(activeLink) != Some(id) ==>
        activeLink == Some(id) && activeSubMenu.None? && collapsed == Flip(old(collapsed), id)
    {
      if activeLink != Some(id) {
        activeLink := Some(id);
        activeSubMenu := None;
        collapsed := Flip(collapsed, id);
      }
    }

    /** `handleCollapseToggle`: flips the entry of a group that is not the
        active link; the active link's own entry is left alone. */
    method CollapseToggle(id: string)
      modifies this`collapsed
      ensures collapsed == if old(activeLink) == Some(id) then old(collapsed) else Flip(old(collapsed), id)
    {
      if activeLink != Some(id) {
        collapsed := Flip(collapsed, id);
      }
    }

    /** `handleSubMenuClick`: the parent becomes active with the clicked
        sub-entry. */
    method SubMenuClick(parentId: string, submenuId: string)
      modifies this`activeLink, this`activeSubMenu
      ensures activeLink == Some(parentId) && activeSubMenu == Some(submenuId)
    {
      activeLink := Some(parentId);
      activeSubMenu := Some(submenuId);
    }

    /** A key press on the header of group `id`: Enter and Space toggle it
        as a click would, other keys do nothing. */
    method HeaderKeyDown(id: string, key: string) returns (preventDefault: bool)
      modifies this`collapsed
      ensures preventDefault <==> key == "Enter" || key == " "
      ensures collapsed == if preventDefault && old(activeLink) != Some(id) then Flip(old(collapsed), id) else old(collapsed)
    {
      var effect := KeyDown(key);
      preventDefault := effect.preventDefault;
      if effect.toggles > 0 {
        CollapseToggle(id);
      }
    }

    /** The route effect: each item is examined in menu order and a match
        overwrites the active state, so the last match wins. */
    method SyncRoute(pathname: string)
      modifies this`activeLink, this`activeSubMenu, this`collapsed
      ensures State() == RouteSync(items, pathname, old(State()))
    {
      ghost var s0 := State();
      var i := 0;
      while i < |items|
        invariant 0 <= i <= |items|
        invariant State() == RouteSync(items[..i], pathname, s0)
      {
        var item := items[i];
        assert items[..i + 1][..i] == items[..i];
        if item.itemType == "collapse" {
          if SomeEntryAt(item.submenus, pathname) {
            activeLink := Some(item.id);
            activeSubMenu := Some(pathname);
            collapsed := collapsed[item.id := true];
          }
        } else if item.path == Some(pathname) {
          activeLink := Some(item.id);
          activeSubMenu := None;
        }
        i := i + 1;
      }
      assert items[..i] == items;
    }
  }
}
