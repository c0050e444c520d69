/** One entry of the sidebar: its custom prop checks, whether one of its
    sub-entries is the current route, its key handler and what it renders
    for each item type. */
module SidebarLinkView {
  import opened Text

  /** A sub-entry of a collapsible group. A missing `id` or `name` is the
      empty string (both are falsy); a missing `path` is None; `hasIcon`
      says whether an icon element is present. */
  datatype Submenu = Submenu(id: string, name: string, path: Option<string>, hasIcon: bool)

  /** The `submenus` prop: missing (undefined or null, which `?.` skips),
      an array of sub-entries, or some other value (an object, a string, a
      number), on which neither `some` nor `map` can be called. */
  datatype SubmenuProp = Absent | Items(entries: seq<Submenu>) | NotArray

  /** A menu item. `itemType` is the `type` prop ('link', 'collapse' or
      anything else). */
  datatype MenuItem = MenuItem(
    id: string, name: string, itemType: string, path: Option<string>, submenus: SubmenuProp)

  /** `!value` on an optional string: missing or empty. */
  predicate Falsy(value: Option<string>)
  {
    value.None? || value.value == ""
  }

  /** The component name the prop checks report. */
  const ComponentName := "SidebarLink"

  const PathMessage := "The prop `path` is required for type `link` in `" + ComponentName + "`."
  const ArrayMessage := "The prop `submenus` must be an array for type `collapse` in `" + ComponentName + "`."
  const EachMessage := "Each submenu in `submenus` must have `id`, `name`, `path`, and `icon` properties in `" + ComponentName + "`."

  /** The `path` prop check: an error exactly for a 'link' item whose path
      is missing or empty, null otherwise. */
  function PathError(item: MenuItem): (e: Option<string>)
    ensures e.Some? <==> item.itemType == "link" && Falsy(item.path)
    ensures e.Some? ==> e.value == PathMessage
  {
    if item.itemType == "link" && Falsy(item.path) then Some(PathMessage) else None
  }

  /** A sub-entry carrying all four of `id`, `name`, `path` and `icon`. */
  predicate Complete(s: Submenu)
  {
    s.id != "" && s.name != "" && !Falsy(s.path) && s.hasIcon
  }

  /** What the `submenus` prop check reports: nothing for an item that is
      not 'collapse'; for a 'collapse' item, the array message when the prop
      is not an array, the per-entry message when some entry is incomplete,
      and nothing otherwise. */
  function SubmenusVerdict(item: MenuItem): Option<string>
  {
    if item.itemType != "collapse" then None
    else if !item.submenus.Items? then Some(ArrayMessage)
    else if exists k :: 0 <= k < |item.submenus.entries| && !Complete(item.submenus.entries[k]) then Some(EachMessage)
    else None
  }

  /** The `submenus` prop check as written: the array test, then an indexed
      loop that returns at the first incomplete entry. */
  method SubmenusError(item: MenuItem) returns (e: Option<string>)
    ensures e == SubmenusVerdict(item)
    ensures e.None? <==> (item.itemType != "collapse"
      || (item.submenus.Items? && forall k :: 0 <= k < |item.submenus.entries| ==> Complete(item.submenus.entries[k])))
  {
    if item.itemType == "collapse" {
      if !item.submenus.Items? {
        return Some(ArrayMessage);
      }
      var subs := item.submenus.entries;
      var i := 0;
      while i < |subs|
        invariant 0 <= i <= |subs|
        invariant forall k :: 0 <= k < i ==> Complete(subs[k])
      {
        var s := subs[i];
        if s.id == "" || s.name == "" || Falsy(s.path) || !s.hasIcon {
          return Some(EachMessage);
        }
        i := i + 1;
      }
    }
    return None;
  }

  /** `some(sub => sub.path === pathname)` over a list of sub-entries. */
  function AnyPathIs(subs: seq<Submenu>, pathname: string): (r: bool)
    ensures r <==> exists k :: 0 <= k < |subs| && subs[k].path == Some(pathname)
    decreases |subs|
  {
    if |subs| == 0 then false
    else if subs[0].path == Some(pathname) then true
    else
      var rest := AnyPathIs(subs[1..], pathname);
      assert forall k :: 1 <= k < |subs| ==> subs[k] == subs[1..][k - 1];
      rest
  }

  /** Some sub-entry of an array prop has the pathname as its path. */
  predicate SomeEntryAt(subs: SubmenuProp, pathname: string)
  {
    subs.Items? && AnyPathIs(subs.entries, pathname)
  }

  /** `isSubMenuActive`, computed for every item before the type dispatch:
      `?.` yields undefined (falsy) for a missing prop, `some` answers for
      an array, and any other value throws a TypeError (None). */
  function IsSubMenuActive(item: MenuItem, pathname: string): (r: Option<bool>)
    ensures r.None? <==> item.submenus.NotArray?
    ensures r == Some(true) <==>
      item.submenus.Items? && exists k :: 0 <= k < |item.submenus.entries| && item.submenus.entries[k].path == Some(pathname)
    ensures item.submenus.Absent? ==> r == Some(false)
  {
    if item.submenus.NotArray? then None else Some(SomeEntryAt(item.submenus, pathname))
  }

  /** The effect of a key press on a group header: whether the default
      action is prevented and how many times the group is toggled. */
  datatype KeyEffect = KeyEffect(preventDefault: bool, toggles: nat)

  /** `handleKeyDown`: Enter and Space prevent the default action and
      toggle the group once; any other key does nothing. */
  function KeyDown(key: string): (e: KeyEffect)
    ensures key == "Enter" || key == " " ==> e.preventDefault && e.toggles == 1
    ensures key != "Enter" && key != " " ==> !e.preventDefault && e.toggles == 0
  {
    if key == "Enter" || key == " " then KeyEffect(true, 1) else KeyEffect(false, 0)
  }

  /** A rendered sub-entry: the route it links to and whether it can be
      reached with the Tab key. */
  datatype SubmenuView = SubmenuView(id: string, to: Option<string>, focusable: bool)

  /** What an item renders: a route link, a collapsible group (highlighted
      when one of its sub-entries is the current route, expanded as told),
      nothing, or a render error: a `submenus` that is neither missing nor
      an array makes `some` throw for any item, and a group's `map` throws
      on a missing one. */
  datatype View =
    | LinkView(id: string, to: Option<string>)
    | GroupView(id: string, highlighted: bool, expanded: bool, entries: seq<SubmenuView>)
    | NoView
    | RenderError

  /** The sub-entries of an expanded or folded group. */
  function Entries(subs: seq<Submenu>, expanded: bool): (r: seq<SubmenuView>)
    ensures |r| == |subs|
    ensures forall k :: 0 <= k < |subs| ==> r[k] == SubmenuView(subs[k].id, subs[k].path, expanded)
  {
    seq(|subs|, k requires 0 <= k < |subs| => SubmenuView(subs[k].id, subs[k].path, expanded))
  }

  /** The component: `isSubMenuActive` first, then the type dispatch. */
  function Render(item: MenuItem, isCollapsed: bool, pathname: string): (v: View)
    ensures v.RenderError? <==> item.submenus.NotArray? || (item.itemType == "collapse" && item.submenus.Absent?)
    ensures v.LinkView? <==> item.itemType == "link" && !item.submenus.NotArray?
    ensures v.GroupView? <==> item.itemType == "collapse" && item.submenus.Items?
    ensures v.NoView? <==> item.itemType != "link" && item.itemType != "collapse" && !item.submenus.NotArray?
    ensures v.LinkView? ==> v.id == item.id && v.to == item.path
    ensures v.GroupView? ==> (v.id == item.id && v.expanded == isCollapsed
      && Some(v.highlighted) == IsSubMenuActive(item, pathname)
      && |v.entries| == |item.submenus.entries|
      && forall k :: 0 <= k < |v.entries| ==> v.entries[k].focusable == isCollapsed)
  {
    match IsSubMenuActive(item, pathname)
    case None => RenderError
    case Some(active) =>
      if item.itemType == "link" then LinkView(item.id, item.path)
      else if item.itemType == "collapse" then
        if item.submenus.Items? then
          GroupView(item.id, active, isCollapsed, Entries(item.submenus.entries, isCollapsed))
        else RenderError
      else NoView
  }

  /** An item both prop checks accept fails to render exactly when its
      `submenus` is some other value than an array: the checks look at that
      prop for groups only. A link it renders leads somewhere: a non-empty
      path. */
  lemma AcceptedItemsRender(item: MenuItem, isCollapsed: bool, pathname: string)
    requires PathError(item).None? && SubmenusVerdict(item).None?
    ensures Render(item, isCollapsed, pathname).RenderError? <==> item.submenus.NotArray?
    ensures Render(item, isCollapsed, pathname).LinkView? ==> !Falsy(Render(item, isCollapsed, pathname).to)
    ensures Render(item, isCollapsed, pathname).GroupView? ==>
      forall k :: 0 <= k < |item.submenus.entries| ==> !Falsy(Render(item, isCollapsed, pathname).entries[k].to)
  {
  }

  /** A link whose `submenus` is an object passes both prop checks, yet
      `some` throws on it before the link is drawn. */
  lemma AcceptedLinkWithObjectSubmenusFails()
    ensures var item := MenuItem("x", "X", "link", Some("/x"), NotArray);
      PathError(item).None? && SubmenusVerdict(item).None? && Render(item, false, "/x").RenderError?
  {
  }
}
