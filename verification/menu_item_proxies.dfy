/** The item proxies of the second server revision: the base proxy, the
    ToolStripItem proxy with its shared cache, and the two root proxies that
    stand for a whole menu strip. */
module MenuItemProxies {
  import opened Wrappers
  import opened HostMenu
  import opened MenuItemSchema
  import DefaultMenuItemProxy
  import ToolStripItemProxy

  /** What a proxy wraps, which also fixes its class. */
  datatype Target =
    | MenuStripRoot(menu: Handle)     // MenuStripProxy
    | ContextMenuRoot(menu: Handle)   // ContextMenuStripProxy
    | ToolStripItem(item: Handle)     // ToolStripItemProxy

  /** A proxy object; proxies are compared by reference. */
  class Proxy {
    const target: Target

    constructor (target: Target)
      ensures this.target == target
    {
      this.target := target;
    }
  }

  /** A root proxy's ChildrenDisplay: "submenu" iff the strip has an item. */
  function StripChildrenDisplay(items: seq<Handle>): (r: Value)
    ensures r == Str("submenu") <==> |items| > 0
    ensures |items| == 0 ==> r == DefaultValue(ChildrenDisplay)
  {
    if |items| > 0 then Str("submenu") else DefaultValue(ChildrenDisplay)
  }

  /** The getter of property `p` on the proxy for `t`: a ToolStripItemProxy
      overrides every getter; a root proxy overrides only ChildrenDisplay and
      inherits the base getters, which return the declared defaults. */
  function PropertyValue(host: Host, t: Target, p: Prop): Value {
    match t
    case ToolStripItem(h) => ToolStripItemProxy.ItemValue(host.node(h), p)
    case MenuStripRoot(m) =>
      if p == ChildrenDisplay then StripChildrenDisplay(host.stripItems(m)) else DefaultMenuItemProxy.SchemaDefault(p)
    case ContextMenuRoot(m) =>
      if p == ChildrenDisplay then StripChildrenDisplay(host.stripItems(m)) else DefaultMenuItemProxy.SchemaDefault(p)
  }

  /** The base getters: GetDefaultValue of the C# property name, which never
      throws and gives the declared default. */
  lemma BaseGettersReturnTheDefault(p: Prop)
    ensures DefaultMenuItemProxy.GetDefaultValue(ClrName(p)) == Ok(DefaultMenuItemProxy.SchemaDefault(p))
    ensures DefaultMenuItemProxy.IsDefaultValue(Some(ClrName(p)), Some(DefaultMenuItemProxy.SchemaDefault(p))) == Ok(true)
  {
    DefaultMenuItemProxy.GetDefaultValueOfClrName(p);
    DefaultMenuItemProxy.SchemaDefaultIsDefault(p);
  }

  /** GetValue: resolve the name as a C# property name, then as a display
      name, and call that getter; an unknown name throws. */
  function GetValue(host: Host, t: Target, name: string): Result<Value> {
    match DefaultMenuItemProxy.ResolveProperty(name)
    case None => Err(Argument)
    case Some(p) => Ok(PropertyValue(host, t, p))
  }

  /** Both names of a property reach its getter; every other name throws. */
  lemma GetValueSpec(host: Host, t: Target, name: string, p: Prop)
    ensures name == DisplayName(p) || name == ClrName(p) ==> GetValue(host, t, name) == Ok(PropertyValue(host, t, p))
    ensures GetValue(host, t, name).Ok? <==> DefaultMenuItemProxy.ResolveProperty(name).Some?
    ensures GetValue(host, t, name).Err? ==> GetValue(host, t, name).error == Argument
  {
    DefaultMenuItemProxy.ResolvePropertySpec(name, p);
  }

  /** When a proxy's property is default: a root proxy's only non-default
      property is ChildrenDisplay of a non-empty strip. */
  predicate IsDefaultState(host: Host, t: Target, p: Prop) {
    match t
    case ToolStripItem(h) => ToolStripItemProxy.IsDefaultState(host.node(h), p)
    case MenuStripRoot(m) => !(p == ChildrenDisplay && |host.stripItems(m)| > 0)
    case ContextMenuRoot(m) => !(p == ChildrenDisplay && |host.stripItems(m)| > 0)
  }

  /** IsDefaultValue, under either name, judges a proxy's value default
      exactly in the default state. */
  lemma PropertyValueIsDefault(host: Host, t: Target, p: Prop, name: string)
    requires name == DisplayName(p) || name == ClrName(p)
    ensures DefaultMenuItemProxy.IsDefaultValue(Some(name), Some(PropertyValue(host, t, p))) == Ok(IsDefaultState(host, t, p))
  {
    if t.ToolStripItem? {
      ToolStripItemProxy.ItemValueIsDefault(host.node(t.item), p, name);
    } else {
      DefaultMenuItemProxy.IsDefaultValueSpec(p, name, PropertyValue(host, t, p));
    }
  }

  /** OnEvent: a ToolStripItemProxy clicks its item on "clicked" and ignores
      every other event; the base proxy ignores all events. */
  function OnEvent(t: Target, eventId: string): (click: Option<Handle>)
    ensures click.Some? <==> t.ToolStripItem? && eventId == "clicked"
    ensures click.Some? ==> click.value == t.item
  {
    if t.ToolStripItem? && eventId == "clicked" then Some(t.item) else None
  }

  /** OnAboutToShow: no proxy overrides the base, which never asks for an
      update. */
  function OnAboutToShow(t: Target): (needsUpdate: bool)
    ensures !needsUpdate
  {
    false
  }

  /** The index of the first item of `items` that is not a
      ToolStripMenuItem, or |items| when all are. */
  function CastPrefix(host: Host, items: seq<Handle>): (k: nat)
    ensures k <= |items|
    ensures forall i :: 0 <= i < k ==> host.node(items[i]).kind == MenuItem
    ensures k < |items| ==> host.node(items[k]).kind != MenuItem
  {
    if items == [] || host.node(items[0]).kind != MenuItem then 0
    else 1 + CastPrefix(host, items[1..])
  }

  /** The host items whose proxies GetChildren returns: the drop-down items of
      an item (none for an item that is not a drop-down), the items of a
      context menu, and the items of a menu strip, each cast to
      ToolStripMenuItem (a failing cast throws). */
  function ChildItems(host: Host, t: Target): (r: Result<seq<Handle>>)
    ensures r.Err? <==> t.MenuStripRoot? && CastPrefix(host, host.stripItems(t.menu)) < |host.stripItems(t.menu)|
    ensures r.Err? ==> r.error == InvalidCast
  {
    match t
    case ToolStripItem(h) => Ok(DropDownItems(host, h))
    case ContextMenuRoot(m) => Ok(host.stripItems(m))
    case MenuStripRoot(m) =>
      if CastPrefix(host, host.stripItems(m)) == |host.stripItems(m)| then Ok(host.stripItems(m)) else Err(InvalidCast)
  }

  /** The items GetChildren visits before it returns or throws. */
  function Visited(host: Host, t: Target): (vs: seq<Handle>)
    ensures ChildItems(host, t).Ok? ==> vs == ChildItems(host, t).value
  {
    match t
    case ToolStripItem(h) => DropDownItems(host, h)
    case ContextMenuRoot(m) => host.stripItems(m)
    case MenuStripRoot(m) => host.stripItems(m)[..CastPrefix(host, host.stripItems(m))]
  }

  /** A cache grown from `before` by the items `added`: no entry changes, and
      the new keys are exactly the added items not cached before. */
  ghost predicate Grown(before: map<Handle, Proxy>, after: map<Handle, Proxy>, added: seq<Handle>) {
    (forall h :: h in before ==> h in after && after[h] == before[h])
    && (forall h :: h in after <==> h in before || h in added)
  }

  /** Growth steps compose. */
  lemma GrownTrans(a: map<Handle, Proxy>, b: map<Handle, Proxy>, c: map<Handle, Proxy>, x: seq<Handle>, y: seq<Handle>)
    requires Grown(a, b, x) && Grown(b, c, y)
    ensures Grown(a, c, x + y)
  {
  }

  /** The static proxy cache of ToolStripItemProxy: one proxy per item. */
  class ProxyCache {
    var proxies: map<Handle, Proxy>

    /** Each cached proxy wraps the item it is cached under. */
    ghost predicate Valid()
      reads this
    {
      forall h :: h in proxies ==> proxies[h].target == ToolStripItem(h)
    }

    constructor ()
      ensures Valid() && proxies == map[]
    {
      proxies := map[];
    }

    /** GetProxyFromCache: the cached proxy of the item, created and cached on
        the first request; later requests return the same proxy. */
    method GetProxyFromCache(item: Handle) returns (proxy: Proxy)
      requires Valid()
      modifies this
      ensures Valid()
      ensures item in proxies && proxy == proxies[item] && proxy.target == ToolStripItem(item)
      ensures item in old(proxies) ==> proxies == old(proxies)
      ensures item !in old(proxies) ==> fresh(proxy) && proxies == old(proxies)[item := proxy]
      ensures Grown(old(proxies), proxies, [item])
    {
      if item in proxies {
        proxy := proxies[item];
      } else {
        proxy := new Proxy(ToolStripItem(item));
        proxies := proxies[item := proxy];
      }
    }

    /** GetChildren of a proxy: the cached proxies of its child items, in host
        order.  A menu strip's loop throws at the first item that is not a
        menu item, after caching the proxies of the items before it. */
    method GetChildren(host: Host, owner: Proxy) returns (r: Result<seq<Proxy>>)
      requires Valid()
      modifies this
      ensures Valid()
      ensures Grown(old(proxies), proxies, Visited(host, owner.target))
      ensures r.Ok? <==> ChildItems(host, owner.target).Ok?
      ensures r.Err? ==> r.error == InvalidCast
      ensures r.Ok? ==> |r.value| == |Visited(host, owner.target)|
      ensures r.Ok? ==> forall i :: 0 <= i < |r.value| ==>
        Visited(host, owner.target)[i] in proxies && r.value[i] == proxies[Visited(host, owner.target)[i]]
        && r.value[i].target == ToolStripItem(Visited(host, owner.target)[i])
    {
      var items := match owner.target
        case ToolStripItem(h) => DropDownItems(host, h)
        case ContextMenuRoot(m) => host.stripItems(m)
        case MenuStripRoot(m) => host.stripItems(m);
      r := CacheItems(host, items, owner.target.MenuStripRoot?);
    }

    /** The loop of GetChildren: the cached proxy of each item in turn; with
        `castEach` (a menu strip) the loop throws at the first item that is
        not a menu item. */
    method CacheItems(host: Host, items: seq<Handle>, castEach: bool) returns (r: Result<seq<Proxy>>)
      requires Valid()
      modifies this
      ensures Valid()
      ensures Grown(old(proxies), proxies, items[..if castEach then CastPrefix(host, items) else |items|])
      ensures r.Ok? <==> !castEach || CastPrefix(host, items) == |items|
      ensures r.Err? ==> r.error == InvalidCast
      ensures r.Ok? ==> Cached(proxies, items, r.value)
    {
      var itemList: seq<Proxy> := [];
      var i := 0;
      while i < |items|
        invariant 0 <= i <= |items|
        invariant Valid()
        invariant castEach ==> i <= CastPrefix(host, items)
        invariant Grown(old(proxies), proxies, items[..i])
        invariant Cached(proxies, items[..i], itemList)
      {
        if castEach && host.node(items[i]).kind != MenuItem {
          return Err(InvalidCast);
        }
        assert castEach ==> i != CastPrefix(host, items);
        ghost var before := proxies;
        var proxy := GetProxyFromCache(items[i]);
        assert items[..i + 1] == items[..i] + [items[i]];
        GrownTrans(old(proxies), before, proxies, items[..i], [items[i]]);
        CachedStep(before, proxies, items[..i], itemList, items[i], proxy);
        itemList := itemList + [proxy];
        i := i + 1;
      }
      assert items[..i] == items;
      r := Ok(itemList);
    }
  }

  /** `list` holds the cached proxy of each item of `hs`, in order. */
  ghost predicate Cached(proxies: map<Handle, Proxy>, hs: seq<Handle>, list: seq<Proxy>) {
    |list| == |hs| && forall j :: 0 <= j < |hs| ==> hs[j] in proxies && list[j] == proxies[hs[j]]
  }

  /** Caching one more item keeps the earlier entries and adds its proxy. */
  lemma CachedStep(before: map<Handle, Proxy>, after: map<Handle, Proxy>, hs: seq<Handle>, list: seq<Proxy>, h: Handle, p: Proxy)
    requires Cached(before, hs, list) && Grown(before, after, [h])
    requires h in after && p == after[h]
    ensures Cached(after, hs + [h], list + [p])
  {
    forall j | 0 <= j < |hs| ensures hs[j] in after && list[j] == after[hs[j]] {
      assert hs[j] in before;
    }
  }
}
