/** The second server revision: the registry holds item proxies, which
    compute property values and children; the server numbers the proxies and
    forwards each protocol call to the proxy in the named slot. */
module MenuStripDBusMenu {
  import opened Wrappers
  import opened HostMenu
  import opened MenuItemSchema
  import opened DBusMenuProtocol
  import opened MenuItemProxies
  import DefaultMenuItemProxy

  /** The target of the proxy in a registry slot; None for an empty slot. */
  function TargetOf(item: Option<Proxy>): Option<Target> {
    match item
    case None => None
    case Some(p) => Some(p.target)
  }

  /** The registry seen through the proxies' targets. */
  function Targets(items: seq<Option<Proxy>>): (ts: seq<Option<Target>>)
    ensures |ts| == |items|
    ensures forall i :: 0 <= i < |items| ==> ts[i] == TargetOf(items[i])
  {
    seq(|items|, i requires 0 <= i < |items| => TargetOf(items[i]))
  }

  /** The targets of the item proxies of `hs`. */
  function ItemTargets(hs: seq<Handle>): (ts: seq<Target>)
    ensures |ts| == |hs|
    ensures forall i :: 0 <= i < |hs| ==> ts[i] == ToolStripItem(hs[i])
  {
    seq(|hs|, i requires 0 <= i < |hs| => ToolStripItem(hs[i]))
  }

  /** The item proxies' targets name exactly the items. */
  lemma ItemTargetsNameTheItems(hs: seq<Handle>)
    ensures forall h :: ToolStripItem(h) in ItemTargets(hs) <==> h in hs
  {
    forall h | h in hs ensures ToolStripItem(h) in ItemTargets(hs) {
      var i :| 0 <= i < |hs| && hs[i] == h;
      assert ItemTargets(hs)[i] == ToolStripItem(h);
    }
  }

  /** Two sequences that hold `x` and `y` at the same positions give the same
      index. */
  lemma IndexOfMapped<A, B>(s: seq<A>, x: A, t: seq<B>, y: B)
    requires |s| == |t|
    requires forall i :: 0 <= i < |s| ==> (s[i] == x <==> t[i] == y)
    ensures IndexOf(s, x) == IndexOf(t, y)
  {
  }

  /** A proxy the server can be handed: the cached proxy of an item, or the
      root proxy in slot 0. */
  ghost predicate Known(items: seq<Option<Proxy>>, proxies: map<Handle, Proxy>, p: Proxy) {
    || (p.target.ToolStripItem? && p.target.item in proxies && proxies[p.target.item] == p)
    || (|items| > 0 && items[0] == Some(p))
  }

  /** The registry invariant: slot 0 holds the root proxy of the menu strip,
      every other live slot the cached proxy of an item, and no target
      occupies two slots. */
  ghost predicate Registry(items: seq<Option<Proxy>>, proxies: map<Handle, Proxy>, menu: Handle) {
    && |items| > 0 && items[0].Some? && items[0].value.target == MenuStripRoot(menu)
    && (forall i :: 0 < i < |items| && items[i].Some? ==>
          && items[i].value.target.ToolStripItem?
          && items[i].value.target.item in proxies
          && proxies[items[i].value.target.item] == items[i].value)
    && NoDuplicates(Targets(items))
  }

  /** Cache entries are never replaced. */
  ghost predicate Kept(before: map<Handle, Proxy>, after: map<Handle, Proxy>) {
    forall h :: h in before ==> h in after && after[h] == before[h]
  }

  /** The registry invariant survives cache growth. */
  lemma RegistryKept(items: seq<Option<Proxy>>, before: map<Handle, Proxy>, after: map<Handle, Proxy>, menu: Handle)
    requires Registry(items, before, menu) && Kept(before, after)
    ensures Registry(items, after, menu)
  {
  }

  /** One step of the walk: registering `h`, then the walk below it, extends
      the registration of the walked prefix to the next one. */
  lemma WalkStep(host: Host, hs: seq<Handle>, i: int, start: seq<Option<Target>>,
                 before: seq<Option<Target>>, after: seq<Option<Target>>)
    requires WellFormed(host) && 0 <= i < |hs|
    requires before == AddAll(start, ItemTargets(PreOrder(host, hs[..i])))
    requires after == AddAll(AddIfAbsent(before, ToolStripItem(hs[i])), ItemTargets(PreOrder(host, DropDownItems(host, hs[i]))))
    ensures after == AddAll(start, ItemTargets(PreOrder(host, hs[..i + 1])))
  {
    var h := hs[i];
    var p0, d := PreOrder(host, hs[..i]), PreOrder(host, DropDownItems(host, h));
    var t, below := ToolStripItem(h), ItemTargets(d);
    PreOrderStep(host, hs, i);
    assert PreOrder(host, hs[..i + 1]) == p0 + ([h] + d);
    ItemTargetsAppend(p0, [h] + d);
    ItemTargetsAppend([h], d);
    assert ItemTargets([h]) == [t];
    assert ItemTargets(PreOrder(host, hs[..i + 1])) == ItemTargets(p0) + ([t] + below);
    AddAllAppend(start, ItemTargets(p0), [t] + below);
    AddAllAppend(before, [t], below);
    assert [t][..0] == [];
    assert AddAll(before, [t]) == AddIfAbsent(before, t);
  }

  /** The targets of a concatenation are the concatenated targets. */
  lemma ItemTargetsAppend(a: seq<Handle>, b: seq<Handle>)
    ensures ItemTargets(a + b) == ItemTargets(a) + ItemTargets(b)
  {
    assert ItemTargets(a + b) == ItemTargets(a) + ItemTargets(b);
  }

  /** One step of the walk caches the proxies of `h` and of the items below
      it. */
  lemma WalkCacheStep(host: Host, hs: seq<Handle>, i: int, a: map<Handle, Proxy>, b: map<Handle, Proxy>,
                      c: map<Handle, Proxy>, d: map<Handle, Proxy>)
    requires WellFormed(host) && 0 <= i < |hs|
    requires Grown(a, b, PreOrder(host, hs[..i]))
    requires Grown(b, c, [hs[i]])
    requires Grown(c, d, PreOrder(host, DropDownItems(host, hs[i])))
    ensures Grown(a, d, PreOrder(host, hs[..i + 1]))
  {
    PreOrderStep(host, hs, i);
    GrownTrans(a, b, c, PreOrder(host, hs[..i]), [hs[i]]);
    GrownTrans(a, c, d, PreOrder(host, hs[..i]) + [hs[i]], PreOrder(host, DropDownItems(host, hs[i])));
    assert PreOrder(host, hs[..i]) + [hs[i]] + PreOrder(host, DropDownItems(host, hs[i])) == PreOrder(host, hs[..i + 1]);
  }

  /** In a registry a known proxy sits exactly where its target does, so ids
      may be computed on targets. */
  lemma IndexOfProxy(items: seq<Option<Proxy>>, proxies: map<Handle, Proxy>, menu: Handle, x: Option<Proxy>)
    requires Registry(items, proxies, menu)
    requires x.Some? ==> Known(items, proxies, x.value)
    ensures IndexOf(items, x) == IndexOf(Targets(items), TargetOf(x))
    ensures x in items <==> TargetOf(x) in Targets(items)
  {
    var ts := Targets(items);
    forall i | 0 <= i < |items| ensures items[i] == x <==> ts[i] == TargetOf(x) {
      if ts[i] == TargetOf(x) && x.Some? {
        var p, q := x.value, items[i].value;
        assert p.target == q.target;
        if i == 0 {
          assert !p.target.ToolStripItem?;
        }
      }
    }
    IndexOfMapped(items, x, ts, TargetOf(x));
  }

  /** Appending the cached proxy of an item not yet registered keeps the
      registry invariant. */
  lemma RegistryAppend(items: seq<Option<Proxy>>, proxies: map<Handle, Proxy>, menu: Handle, p: Proxy)
    requires Registry(items, proxies, menu)
    requires p.target.ToolStripItem? && p.target.item in proxies && proxies[p.target.item] == p
    requires Some(p.target) !in Targets(items)
    ensures Targets(items + [Some(p)]) == Targets(items) + [Some(p.target)]
    ensures Registry(items + [Some(p)], proxies, menu)
  {
    assert Targets(items + [Some(p)]) == Targets(items) + [Some(p.target)];
  }

  /** Emptying the slot of an item keeps the registry invariant. */
  lemma RegistryTombstone(items: seq<Option<Proxy>>, proxies: map<Handle, Proxy>, menu: Handle, i: int)
    requires Registry(items, proxies, menu)
    requires 0 < i < |items| && items[i].Some?
    ensures Targets(items[i := None]) == Targets(items)[i := None]
    ensures Registry(items[i := None], proxies, menu)
  {
    assert Targets(items[i := None]) == Targets(items)[i := None];
    TombstonedHasNoId(Targets(items), i);
  }

  /** The rank that bounds the depth of a target's subtree. */
  ghost function TargetRank(host: Host, t: Option<Target>): nat
    requires WellFormed(host)
  {
    match t
    case None => 0
    case Some(ToolStripItem(h)) => Height(host, h)
    case Some(MenuStripRoot(m)) => Bound(host, host.stripItems(m))
    case Some(ContextMenuRoot(m)) => Bound(host, host.stripItems(m))
  }

  /** Every child a proxy visits ranks below the proxy. */
  lemma ChildRank(host: Host, t: Target)
    requires WellFormed(host)
    ensures forall c :: c in Visited(host, t) ==> Height(host, c) < TargetRank(host, Some(t))
  {
    match t
    case ToolStripItem(h) =>
      forall c | c in DropDownItems(host, h) ensures Height(host, c) < Height(host, h) {
        HeightDecreases(host, h, c);
      }
    case MenuStripRoot(m) =>
      BoundAbove(host, host.stripItems(m));
      var strip := host.stripItems(m);
      assert forall c :: c in strip[..CastPrefix(host, strip)] ==> c in strip;
    case ContextMenuRoot(m) =>
      BoundAbove(host, host.stripItems(m));
  }

  /** GetValue on the proxy in a slot; on an empty slot it throws. */
  function ValueOf(host: Host, t: Option<Target>, name: string): Result<Value> {
    match t
    case None => Err(NullReference)
    case Some(t) => GetValue(host, t, name)
  }

  /** The sparse property map of a slot's proxy: for each requested name in
      turn, GetValue, skipped when it throws, when IsDefaultValue does not
      reject the value, or when the name was added before (Dictionary.Add
      throws on a repeated key). */
  function TargetProps(host: Host, t: Option<Target>, names: seq<string>): map<string, Value> {
    if names == [] then map[]
    else
      var m := TargetProps(host, t, names[..|names| - 1]);
      var name := names[|names| - 1];
      match ValueOf(host, t, name)
      case Err(_) => m
      case Ok(v) =>
        if DefaultMenuItemProxy.IsDefaultValue(Some(name), Some(v)) != Ok(false) || name in m then m else m[name := v]
  }

  /** A live proxy's map holds exactly the requested names (display or C#
      names) whose property is not in its default state, with the proxy's
      values; an empty slot's map is empty. */
  lemma {:induction false} TargetPropsSpec(host: Host, t: Option<Target>, names: seq<string>)
    ensures t.None? ==> TargetProps(host, t, names) == map[]
    ensures t.Some? ==> forall k :: k in TargetProps(host, t, names) <==>
      && k in names
      && DefaultMenuItemProxy.ResolveProperty(k).Some?
      && !IsDefaultState(host, t.value, DefaultMenuItemProxy.ResolveProperty(k).value)
    ensures t.Some? ==> forall k :: k in TargetProps(host, t, names) ==>
      TargetProps(host, t, names)[k] == PropertyValue(host, t.value, DefaultMenuItemProxy.ResolveProperty(k).value)
  {
    if names != [] {
      var init, name := names[..|names| - 1], names[|names| - 1];
      TargetPropsSpec(host, t, init);
      assert forall k :: k in names <==> k in init || k == name;
      if t.Some? && DefaultMenuItemProxy.ResolveProperty(name).Some? {
        var p := DefaultMenuItemProxy.ResolveProperty(name).value;
        DefaultMenuItemProxy.ResolvePropertySpec(name, p);
        PropertyValueIsDefault(host, t.value, p, name);
      }
    }
  }

  /** The names requested: all display names when the request names none. */
  function Requested(propertyNames: seq<string>): seq<string> {
    if |propertyNames| == 0 then DefaultMenuItemProxy.GetAllDisplayNames() else propertyNames
  }

  /** The properties of each slot's layout entry: the sparse map of the
      requested names. */
  type Props = Option<Target> -> map<string, Value>

  /** The sparse map of `names` for each slot. */
  function PropsOf(host: Host, names: seq<string>): Props {
    t => TargetProps(host, t, names)
  }

  /** CreateMenuItemLayout: the slot's id and sparse properties and, while the
      depth bound allows, the layouts of the proxy's children in order.  An
      empty slot throws when asked for children, and so does a menu strip
      holding an item that is not a menu item. */
  function LayoutOf(host: Host, reg: seq<Option<Target>>, t: Option<Target>,
                    depth: int, maxDepth: int, props: Props): Result<Layout>
    requires WellFormed(host)
    decreases TargetRank(host, t), 1, 0
  {
    var id := IndexOf(reg, t);
    var properties := props(t);
    if !(maxDepth < 0 || depth < maxDepth) then Ok(Layout(id, properties, []))
    else if t.None? then Err(NullReference)
    else
      match ChildItems(host, t.value)
      case Err(e) => Err(e)
      case Ok(cs) =>
        ChildRank(host, t.value);
        match ChildLayouts(host, reg, cs, depth + 1, maxDepth, props, TargetRank(host, t))
        case Err(e) => Err(e)
        case Ok(children) => Ok(Layout(id, properties, children))
  }

  /** The layouts of the item proxies of `cs`, in order; the first that throws
      ends the walk. */
  function ChildLayouts(host: Host, reg: seq<Option<Target>>, cs: seq<Handle>,
                        depth: int, maxDepth: int, props: Props, ghost bound: nat): Result<seq<Layout>>
    requires WellFormed(host)
    requires forall c :: c in cs ==> Height(host, c) < bound
    decreases bound, 0, |cs|
  {
    if cs == [] then Ok([])
    else
      assert forall c :: c in cs[..|cs| - 1] ==> c in cs;
      match ChildLayouts(host, reg, cs[..|cs| - 1], depth, maxDepth, props, bound)
      case Err(e) => Err(e)
      case Ok(ls) =>
        match LayoutOf(host, reg, Some(ToolStripItem(cs[|cs| - 1])), depth, maxDepth, props)
        case Err(e) => Err(e)
        case Ok(l) => Ok(ls + [l])
  }

  /** Once the walk has thrown, it has thrown for good. */
  lemma {:induction false} ChildLayoutsStopsAtError(host: Host, reg: seq<Option<Target>>, cs: seq<Handle>,
                                                    depth: int, maxDepth: int, props: Props, bound: nat, j: nat)
    requires WellFormed(host)
    requires forall c :: c in cs ==> Height(host, c) < bound
    requires j <= |cs|
    requires forall c :: c in cs[..j] ==> Height(host, c) < bound
    requires ChildLayouts(host, reg, cs[..j], depth, maxDepth, props, bound).Err?
    ensures ChildLayouts(host, reg, cs, depth, maxDepth, props, bound) == ChildLayouts(host, reg, cs[..j], depth, maxDepth, props, bound)
    decreases |cs|
  {
    if j < |cs| {
      var init := cs[..|cs| - 1];
      assert init[..j] == cs[..j];
      assert forall c :: c in init ==> c in cs;
      ChildLayoutsStopsAtError(host, reg, init, depth, maxDepth, props, bound, j);
    } else {
      assert cs[..j] == cs;
    }
  }

  /** LayoutOf of a live target when children are asked for and its
      children can be listed. */
  lemma LayoutOfChildren(host: Host, reg: seq<Option<Target>>, t: Target, depth: int, maxDepth: int, props: Props)
    requires WellFormed(host)
    requires maxDepth < 0 || depth < maxDepth
    requires ChildItems(host, t).Ok?
    ensures forall c :: c in Visited(host, t) ==> Height(host, c) < TargetRank(host, Some(t))
    ensures LayoutOf(host, reg, Some(t), depth, maxDepth, props)
      == match ChildLayouts(host, reg, Visited(host, t), depth + 1, maxDepth, props, TargetRank(host, Some(t)))
         case Err(e) => Err(e)
         case Ok(children) => Ok(Layout(IndexOf(reg, Some(t)), props(Some(t)), children))
  {
    ChildRank(host, t);
  }

  /** One more child: the walk so far, then the child's layout. */
  lemma ChildLayoutsLast(host: Host, reg: seq<Option<Target>>, cs: seq<Handle>,
                         depth: int, maxDepth: int, props: Props, bound: nat)
    requires WellFormed(host)
    requires forall c :: c in cs ==> Height(host, c) < bound
    requires cs != []
    ensures forall c :: c in cs[..|cs| - 1] ==> Height(host, c) < bound
    ensures ChildLayouts(host, reg, cs, depth, maxDepth, props, bound)
      == match ChildLayouts(host, reg, cs[..|cs| - 1], depth, maxDepth, props, bound)
         case Err(e) => Err(e)
         case Ok(ls) =>
           match LayoutOf(host, reg, Some(ToolStripItem(cs[|cs| - 1])), depth, maxDepth, props)
           case Err(e) => Err(e)
           case Ok(l) => Ok(ls + [l])
  {
    assert forall c :: c in cs[..|cs| - 1] ==> c in cs;
  }

  /** When every child's layout succeeds, so does the walk, in order. */
  lemma {:induction false} ChildLayoutsOk(host: Host, reg: seq<Option<Target>>, cs: seq<Handle>,
                                          depth: int, maxDepth: int, props: Props, bound: nat)
    requires WellFormed(host)
    requires forall c :: c in cs ==> Height(host, c) < bound
    requires forall i :: 0 <= i < |cs| ==> LayoutOf(host, reg, Some(ToolStripItem(cs[i])), depth, maxDepth, props).Ok?
    ensures ChildLayouts(host, reg, cs, depth, maxDepth, props, bound).Ok?
    ensures |ChildLayouts(host, reg, cs, depth, maxDepth, props, bound).value| == |cs|
    ensures forall i :: 0 <= i < |cs| ==>
      ChildLayouts(host, reg, cs, depth, maxDepth, props, bound).value[i]
        == LayoutOf(host, reg, Some(ToolStripItem(cs[i])), depth, maxDepth, props).value
  {
    if cs != [] {
      var init, last := cs[..|cs| - 1], cs[|cs| - 1];
      assert forall c :: c in init ==> c in cs;
      forall i | 0 <= i < |init|
        ensures LayoutOf(host, reg, Some(ToolStripItem(init[i])), depth, maxDepth, props).Ok?
      {
        assert init[i] == cs[i];
      }
      ChildLayoutsOk(host, reg, init, depth, maxDepth, props, bound);
      var ls := ChildLayouts(host, reg, init, depth, maxDepth, props, bound).value;
      var l := LayoutOf(host, reg, Some(ToolStripItem(last)), depth, maxDepth, props).value;
      ChildLayoutsLast(host, reg, cs, depth, maxDepth, props, bound);
      assert ChildLayouts(host, reg, cs, depth, maxDepth, props, bound) == Ok(ls + [l]);
      forall i | 0 <= i < |cs|
        ensures (ls + [l])[i] == LayoutOf(host, reg, Some(ToolStripItem(cs[i])), depth, maxDepth, props).value
      {
        if i < |init| { assert init[i] == cs[i]; }
      }
    }
  }

  /** `l` is the layout of item `h` cut `k` levels below it (never cut when
      `k` is negative): the item's id and sparse properties, and its drop-down
      items' layouts in host order. */
  ghost predicate Mirrors(host: Host, reg: seq<Option<Target>>, l: Layout, h: Handle, props: Props, k: int)
    requires WellFormed(host)
    decreases Height(host, h)
  {
    var cs := DropDownItems(host, h);
    && l.id == IndexOf(reg, Some(ToolStripItem(h)))
    && l.properties == props(Some(ToolStripItem(h)))
    && (k == 0 ==> l.children == [])
    && (k != 0 ==> |l.children| == |cs|)
    && (k != 0 ==> forall i :: 0 <= i < |cs| && i < |l.children| ==>
                     Mirrors(host, reg, l.children[i], cs[i], props, Below(k)))
  }

  /** An item's layout never throws, and follows the depth rule: a negative
      recursion depth gives the whole subtree, a depth n gives n levels. */
  lemma {:induction false} ItemLayoutMirrors(host: Host, reg: seq<Option<Target>>, h: Handle,
                                             depth: int, maxDepth: int, props: Props)
    requires WellFormed(host)
    requires maxDepth < 0 || depth <= maxDepth
    ensures LayoutOf(host, reg, Some(ToolStripItem(h)), depth, maxDepth, props).Ok?
    ensures Mirrors(host, reg, LayoutOf(host, reg, Some(ToolStripItem(h)), depth, maxDepth, props).value, h, props,
                    Levels(depth, maxDepth))
    decreases Height(host, h), 1
  {
    if maxDepth < 0 || depth < maxDepth {
      var t := ToolStripItem(h);
      LevelsBelow(depth, maxDepth);
      LayoutOfChildren(host, reg, t, depth, maxDepth, props);
      ChildLayoutsMirror(host, reg, Visited(host, t), depth + 1, maxDepth, props, TargetRank(host, Some(t)));
    }
  }

  /** The walk over items of lower height never throws, and each layout it
      gives mirrors its item. */
  lemma {:induction false} ChildLayoutsMirror(host: Host, reg: seq<Option<Target>>, cs: seq<Handle>,
                                              depth: int, maxDepth: int, props: Props, bound: nat)
    requires WellFormed(host)
    requires maxDepth < 0 || depth <= maxDepth
    requires forall c :: c in cs ==> Height(host, c) < bound
    ensures ChildLayouts(host, reg, cs, depth, maxDepth, props, bound).Ok?
    ensures |ChildLayouts(host, reg, cs, depth, maxDepth, props, bound).value| == |cs|
    ensures forall i :: 0 <= i < |cs| ==>
      Mirrors(host, reg, ChildLayouts(host, reg, cs, depth, maxDepth, props, bound).value[i], cs[i], props,
              Levels(depth, maxDepth))
    decreases bound, 0
  {
    var k := Levels(depth, maxDepth);
    forall i | 0 <= i < |cs|
      ensures LayoutOf(host, reg, Some(ToolStripItem(cs[i])), depth, maxDepth, props).Ok?
      ensures Mirrors(host, reg, LayoutOf(host, reg, Some(ToolStripItem(cs[i])), depth, maxDepth, props).value, cs[i], props, k)
    {
      assert cs[i] in cs;
      ItemLayoutMirrors(host, reg, cs[i], depth, maxDepth, props);
    }
    ChildLayoutsOk(host, reg, cs, depth, maxDepth, props, bound);
  }

  /** The root's layout, when children are asked for, throws InvalidCast
      when the strip holds an item that is not a menu item. */
  lemma RootLayoutFails(host: Host, reg: seq<Option<Target>>, m: Handle,
                        depth: int, maxDepth: int, props: Props)
    requires WellFormed(host)
    requires maxDepth < 0 || depth < maxDepth
    requires CastPrefix(host, host.stripItems(m)) < |host.stripItems(m)|
    ensures LayoutOf(host, reg, Some(MenuStripRoot(m)), depth, maxDepth, props) == Err(InvalidCast)
  {
    assert ChildItems(host, MenuStripRoot(m)) == Err(InvalidCast);
  }

  /** The root's layout, when children are asked for and every strip item
      is a menu item: the root's id and properties, and the strip's items,
      each cut one level further down. */
  lemma RootLayoutMirrorsStrip(host: Host, reg: seq<Option<Target>>, m: Handle,
                               depth: int, maxDepth: int, props: Props)
    requires WellFormed(host)
    requires maxDepth < 0 || depth < maxDepth
    requires CastPrefix(host, host.stripItems(m)) == |host.stripItems(m)|
    ensures var strip := host.stripItems(m);
      var l := LayoutOf(host, reg, Some(MenuStripRoot(m)), depth, maxDepth, props);
      && l.Ok?
      && l.value.id == IndexOf(reg, Some(MenuStripRoot(m)))
      && l.value.properties == props(Some(MenuStripRoot(m)))
      && |l.value.children| == |strip|
      && forall i :: 0 <= i < |strip| ==>
           Mirrors(host, reg, l.value.children[i], strip[i], props, Levels(depth + 1, maxDepth))
  {
    var t, strip := MenuStripRoot(m), host.stripItems(m);
    assert Visited(host, t) == strip by {
      assert strip[..|strip|] == strip;
    }
    LayoutOfChildren(host, reg, t, depth, maxDepth, props);
    ChildLayoutsMirror(host, reg, strip, depth + 1, maxDepth, props, TargetRank(host, Some(t)));
  }

  /** A registered proxy's layout carries its slot as id.  An empty slot
      throws when asked for children; otherwise its layout carries the first
      empty slot's index and no properties. */
  lemma LayoutOfSlot(host: Host, reg: seq<Option<Target>>, i: int, depth: int, maxDepth: int, names: seq<string>)
    requires WellFormed(host)
    requires NoDuplicates(reg) && 0 <= i < |reg|
    ensures reg[i].Some? && LayoutOf(host, reg, reg[i], depth, maxDepth, PropsOf(host, names)).Ok? ==>
      LayoutOf(host, reg, reg[i], depth, maxDepth, PropsOf(host, names)).value.id == i
    ensures reg[i].None? && (maxDepth < 0 || depth < maxDepth) ==>
      LayoutOf(host, reg, reg[i], depth, maxDepth, PropsOf(host, names)) == Err(NullReference)
    ensures reg[i].None? && !(maxDepth < 0 || depth < maxDepth) ==>
      var l := LayoutOf(host, reg, reg[i], depth, maxDepth, PropsOf(host, names));
      l.Ok? && l.value.id == IndexOf(reg, None) && 0 <= l.value.id <= i
      && l.value.properties == map[] && l.value.children == []
  {
    if reg[i].Some? {
      IndexOfRegistered(reg, i);
    } else {
      TargetPropsSpec(host, None, names);
    }
  }

  /** A layout result stamped with the revision. */
  function Stamped(revision: int, l: Result<Layout>): (r: Result<LayoutReply>)
    ensures r.Ok? <==> l.Ok?
    ensures r.Ok? ==> r.value == LayoutReply(revision, l.value)
    ensures r.Err? ==> r.error == l.error
  {
    match l
    case Err(e) => Err(e)
    case Ok(layout) => Ok(LayoutReply(revision, layout))
  }

  /** Event on a slot: an id outside the registry throws, so does any event
      on an empty slot; otherwise the proxy's OnEvent decides the click.
      `perform` gives, for each item, what InvokeWinformsThread(() =>
      mItem.PerformClick()) does: Pass, or the exception it raises (an item
      with no current parent, a throwing Click handler rethrown by Invoke). */
  function EventOutcome(reg: seq<Option<Target>>, id: int, eventId: string, perform: Handle -> Outcome): Result<Option<Handle>> {
    if !(0 <= id < |reg|) then Err(ArgumentOutOfRange)
    else if reg[id].None? then Err(NullReference)
    else match OnEvent(reg[id].value, eventId)
      case None => Ok(None)
      case Some(h) => ClickResult(h, perform(h))
  }

  /** The outcome of each event of a batch, against the registry `reg`. */
  function Outcomes(reg: seq<Option<Target>>, perform: Handle -> Outcome): MenuEvent -> Result<Option<Handle>> {
    (e: MenuEvent) => EventOutcome(reg, e.id, e.eventId, perform)
  }

  /** Whether an event of a batch throws, against the registry `reg`. */
  function Failures(reg: seq<Option<Target>>, perform: Handle -> Outcome): MenuEvent -> bool {
    (e: MenuEvent) => EventOutcome(reg, e.id, e.eventId, perform).Err?
  }

  /** A batch clicks exactly the items whose proxies sit in the slots named by
      its "clicked" entries and whose click completes. */
  lemma ClickedItems(reg: seq<Option<Target>>, perform: Handle -> Outcome, events: seq<MenuEvent>)
    ensures forall h :: h in Clicks(events, Outcomes(reg, perform)) <==>
      exists e :: e in events && e.eventId == "clicked" && 0 <= e.id < |reg| && reg[e.id] == Some(ToolStripItem(h)) && perform(h).Pass?
  {
    ClicksSpec(events, Outcomes(reg, perform));
  }

  /** EventGroup reports an id iff some event with that id names no slot or
      an empty slot, or clicks an item proxy whose click throws. */
  lemma FailedEvents(reg: seq<Option<Target>>, perform: Handle -> Outcome, events: seq<MenuEvent>)
    ensures forall x :: x in FailedIds(events, Failures(reg, perform)) <==>
      exists e :: e in events && e.id == x &&
        (!(0 <= x < |reg|) || reg[x].None? || (e.eventId == "clicked" && reg[x].value.ToolStripItem? && perform(reg[x].value.item).Fail?))
  {
    FailedIdsSpec(events, [], Failures(reg, perform));
  }

  /** AboutToShow on a slot: an id outside the registry or an empty slot
      throws; otherwise the proxy's OnAboutToShow answers. */
  function AboutToShowAt(reg: seq<Option<Target>>, id: int): (r: Result<bool>)
    ensures r.Ok? ==> !r.value
  {
    if !(0 <= id < |reg|) then Err(ArgumentOutOfRange)
    else if reg[id].None? then Err(NullReference)
    else Ok(OnAboutToShow(reg[id].value))
  }

  /** The update map of OnItemPropertiesChanged: each property's display name
      mapped to the proxy's value. */
  function Diff(host: Host, t: Target, ps: seq<Prop>): map<string, Value> {
    DefaultMenuItemProxy.Index(map[], ps, DisplayName, p => PropertyValue(host, t, p))
  }

  /** The map's keys are the display names of `ps`, each with its property's
      current value. */
  lemma DiffSpec(host: Host, t: Target, ps: seq<Prop>)
    ensures forall k :: k in Diff(host, t, ps) <==> exists p :: p in ps && DisplayName(p) == k
    ensures forall p :: p in ps ==> DisplayName(p) in Diff(host, t, ps) && Diff(host, t, ps)[DisplayName(p)] == PropertyValue(host, t, p)
  {
    var val := p => PropertyValue(host, t, p);
    forall k ensures k in Diff(host, t, ps) <==> exists p :: p in ps && DisplayName(p) == k {
      DefaultMenuItemProxy.IndexKeys(map[], ps, DisplayName, val, k);
    }
    forall p | p in ps ensures DisplayName(p) in Diff(host, t, ps) && Diff(host, t, ps)[DisplayName(p)] == PropertyValue(host, t, p) {
      forall q | q in ps && DisplayName(q) == DisplayName(p) ensures q == p {
        NamesInjective(p, q);
      }
      DefaultMenuItemProxy.IndexValue(map[], ps, DisplayName, val, p);
    }
  }

  /** The properties a host change announces: an enabled change of an item
      with an image also announces its icon, which is drawn greyed out. */
  function ChangedProps(host: Host, item: Handle, change: Change): seq<Prop> {
    if change == EnabledChanged && host.node(item).image.Some? then [Enabled, IconData] else [ChangedProp(change)]
  }

  /** The signals of OnItemPropertiesChanged for the proxy of `t`: one update
      of the properties `ps` to each property subscriber, then a LayoutUpdated
      naming the proxy's slot to each layout subscriber. */
  function ChangeSignals(host: Host, reg: seq<Option<Target>>, revision: int,
                         propertySubscribers: nat, layoutSubscribers: nat, t: Target, ps: seq<Prop>): seq<Signal>
  {
    var id := IndexOf(reg, Some(t));
    PropertyDeliveries([ItemProperties(id, Diff(host, t, ps))], propertySubscribers)
      + LayoutDeliveries(revision, id, layoutSubscribers)
  }

  /** The signals announcing `children-display` of an item that has no
      slot: both the update and the LayoutUpdated carry id -1. */
  lemma RemovedItemSignals(host: Host, reg: seq<Option<Target>>, revision: int, propertySubscribers: nat,
                           layoutSubscribers: nat, item: Handle)
    requires IndexOf(reg, Some(ToolStripItem(item))) == -1
    ensures ChangeSignals(host, reg, revision, propertySubscribers, layoutSubscribers, ToolStripItem(item), [ChildrenDisplay])
      == PropertyDeliveries([ItemProperties(-1, map[DisplayName(ChildrenDisplay) := PropertyValue(host, ToolStripItem(item), ChildrenDisplay)])],
                            propertySubscribers)
         + LayoutDeliveries(revision, -1, layoutSubscribers)
  {
    assert Diff(host, ToolStripItem(item), [ChildrenDisplay])
      == map[DisplayName(ChildrenDisplay) := PropertyValue(host, ToolStripItem(item), ChildrenDisplay)];
  }

  /** The server object.  `items` is mMenuItemList, whose index is the
      protocol id; `cache` is ToolStripItemProxy's proxy cache; `signals`
      holds every signal delivery in order, one per subscriber; `clicked`
      logs the items clicked through Event. */
  class Server {
    const cache: ProxyCache
    const menu: Handle
    var items: seq<Option<Proxy>>
    var revision: int
    var propertySubscribers: nat
    var layoutSubscribers: nat
    var signals: seq<Signal>
    var clicked: seq<Handle>

    /** The registry invariant over the cache, and the revision is a uint. */
    ghost predicate Valid()
      reads this`items, this`revision, cache
    {
      cache.Valid() && Registry(items, cache.proxies, menu) && 0 <= revision < RevisionModulus
    }

    /** The constructor: the menu strip's root proxy at index 0, then the
        cached proxy of every item of the strip in depth-first pre-order, each
        once; every item walked gets a cached proxy. */
    constructor (host: Host, menu: Handle, cache: ProxyCache)
      requires WellFormed(host) && cache.Valid()
      modifies cache
      ensures Valid() && this.menu == menu && this.cache == cache
      ensures Targets(items) == AddAll([Some(MenuStripRoot(menu))], ItemTargets(PreOrder(host, host.stripItems(menu))))
      ensures forall h :: Some(ToolStripItem(h)) in Targets(items) <==> h in PreOrder(host, host.stripItems(menu))
      ensures Grown(old(cache.proxies), cache.proxies, PreOrder(host, host.stripItems(menu)))
      ensures revision == 0 && propertySubscribers == 0 && layoutSubscribers == 0
      ensures signals == [] && clicked == []
    {
      this.menu := menu;
      this.cache := cache;
      var root := new Proxy(MenuStripRoot(menu));
      items := [Some(root)];
      revision := 0;
      propertySubscribers := 0;
      layoutSubscribers := 0;
      signals := [];
      clicked := [];
      new;
      assert Targets(items) == [Some(MenuStripRoot(menu))];
      AddItemsToMenuItemList(host, host.stripItems(menu));
      AddAllSpec([Some(MenuStripRoot(menu))], ItemTargets(PreOrder(host, host.stripItems(menu))));
      ItemTargetsNameTheItems(PreOrder(host, host.stripItems(menu)));
    }

    /** AddItemsToMenuItemList: walk the items and, below each drop-down item,
        its drop-down items, appending each item's cached proxy unless already
        registered.  The last two ensures repeat what the frame gives; stated
        outright, they spare the constructor a costly frame argument. */
    method AddItemsToMenuItemList(host: Host, hs: seq<Handle>)
      requires WellFormed(host) && Valid()
      modifies this`items, cache
      ensures Valid()
      ensures Targets(items) == AddAll(old(Targets(items)), ItemTargets(PreOrder(host, hs)))
      ensures Grown(old(cache.proxies), cache.proxies, PreOrder(host, hs))
      ensures revision == old(revision) && signals == old(signals) && clicked == old(clicked)
      ensures propertySubscribers == old(propertySubscribers) && layoutSubscribers == old(layoutSubscribers)
      decreases Bound(host, hs), 1
    {
      var i := 0;
      while i < |hs|
        invariant 0 <= i <= |hs|
        invariant Valid()
        invariant Targets(items) == AddAll(old(Targets(items)), ItemTargets(PreOrder(host, hs[..i])))
        invariant Grown(old(cache.proxies), cache.proxies, PreOrder(host, hs[..i]))
      {
        ghost var before := Targets(items);
        ghost var cached := cache.proxies;
        BoundAbove(host, hs);
        ghost var fetched := AddItemTree(host, hs[i]);
        WalkStep(host, hs, i, old(Targets(items)), before, Targets(items));
        WalkCacheStep(host, hs, i, old(cache.proxies), cached, fetched, cache.proxies);
        i := i + 1;
      }
      assert hs[..i] == hs;
    }

    /** One step of AddItemsToMenuItemList: the item's cached proxy (the
        cache as it was after that fetch is `fetched`), then the walk below
        it. */
    method AddItemTree(host: Host, h: Handle) returns (ghost fetched: map<Handle, Proxy>)
      requires WellFormed(host) && Valid()
      modifies this`items, cache
      ensures Valid()
      ensures Targets(items) == AddAll(AddIfAbsent(old(Targets(items)), ToolStripItem(h)), ItemTargets(PreOrder(host, DropDownItems(host, h))))
      ensures Grown(old(cache.proxies), fetched, [h]) && Grown(fetched, cache.proxies, PreOrder(host, DropDownItems(host, h)))
      decreases Height(host, h), 2
    {
      ghost var cached := cache.proxies;
      var proxy := cache.GetProxyFromCache(h);
      fetched := cache.proxies;
      Register(proxy, cached);
      ChildrenBound(host, h);
      AddItemsToMenuItemList(host, DropDownItems(host, h));
    }

    /** `if (!mMenuItemList.Contains(proxy)) mMenuItemList.Add(proxy)` for
        an item proxy just fetched from the cache, which grew from `cached`. */
    method Register(proxy: Proxy, ghost cached: map<Handle, Proxy>)
      requires cache.Valid() && Registry(items, cached, menu) && Kept(cached, cache.proxies)
      requires 0 <= revision < RevisionModulus
      requires proxy.target.ToolStripItem? && proxy.target.item in cache.proxies && cache.proxies[proxy.target.item] == proxy
      modifies this`items
      ensures Valid()
      ensures Targets(items) == AddIfAbsent(old(Targets(items)), proxy.target)
    {
      RegistryKept(items, cached, cache.proxies, menu);
      IndexOfProxy(items, cache.proxies, menu, Some(proxy));
      if Some(proxy) !in items {
        RegistryAppend(items, cache.proxies, menu, proxy);
        items := items + [Some(proxy)];
      }
    }

    /** ItemAdded of drop-down item `owner`: register the added item's proxy
        if absent; when it is the owner's only item, announce its
        `children-display`. */
    method OnItemAdded(host: Host, owner: Handle, item: Handle)
      requires Valid()
      modifies this`items, this`signals, this`revision, cache
      ensures Valid()
      ensures Targets(items) == AddIfAbsent(old(Targets(items)), ToolStripItem(item))
      ensures Grown(old(cache.proxies), cache.proxies, [item])
      ensures |DropDownItems(host, owner)| == 1 ==>
        signals == old(signals) + ChangeSignals(host, Targets(items), old(revision), propertySubscribers, layoutSubscribers,
                                                ToolStripItem(item), [ChildrenDisplay])
      ensures |DropDownItems(host, owner)| == 1 ==> revision == Advance(old(revision), layoutSubscribers)
      ensures |DropDownItems(host, owner)| != 1 ==> signals == old(signals) && revision == old(revision)
    {
      ghost var cached := cache.proxies;
      var proxy := cache.GetProxyFromCache(item);
      Register(proxy, cached);
      if |DropDownItems(host, owner)| == 1 {
        OnItemPropertiesChanged(host, [ChildrenDisplay], proxy);
      }
    }

    /** ItemRemoved of drop-down item `owner`: empty the slot of the removed
        item's proxy, so that no other id moves; an item whose proxy is not
        registered makes the slot index -1 and throws.  The slot is emptied
        before the signals are built, so when the owner has no items left the
        `children-display` update and the LayoutUpdated carry id -1. */
    method OnItemRemoved(host: Host, owner: Handle, item: Handle) returns (r: Outcome)
      requires Valid()
      modifies this`items, this`signals, this`revision, cache
      ensures Valid()
      ensures Grown(old(cache.proxies), cache.proxies, [item])
      ensures Some(ToolStripItem(item)) !in old(Targets(items)) ==>
        r == Fail(ArgumentOutOfRange) && items == old(items) && signals == old(signals) && revision == old(revision)
      ensures Some(ToolStripItem(item)) in old(Targets(items)) ==>
        && r == Pass
        && Targets(items) == old(Targets(items))[IndexOf(old(Targets(items)), Some(ToolStripItem(item))) := None]
        && Some(ToolStripItem(item)) !in Targets(items)
      ensures Some(ToolStripItem(item)) in old(Targets(items)) && |DropDownItems(host, owner)| == 0 ==>
        && signals == old(signals) + ChangeSignals(host, Targets(items), old(revision), propertySubscribers, layoutSubscribers,
                                                   ToolStripItem(item), [ChildrenDisplay])
        && ChangeSignals(host, Targets(items), old(revision), propertySubscribers, layoutSubscribers, ToolStripItem(item), [ChildrenDisplay])
           == PropertyDeliveries([ItemProperties(-1, map[DisplayName(ChildrenDisplay) := PropertyValue(host, ToolStripItem(item), ChildrenDisplay)])],
                                 propertySubscribers)
              + LayoutDeliveries(old(revision), -1, layoutSubscribers)
      ensures Some(ToolStripItem(item)) in old(Targets(items)) && |DropDownItems(host, owner)| == 0 ==>
        revision == Advance(old(revision), layoutSubscribers)
      ensures Some(ToolStripItem(item)) in old(Targets(items)) && |DropDownItems(host, owner)| != 0 ==>
        signals == old(signals) && revision == old(revision)
    {
      ghost var cached := cache.proxies;
      var proxy := cache.GetProxyFromCache(item);
      r := Unregister(proxy, cached);
      if r.Pass? && |DropDownItems(host, owner)| == 0 {
        OnItemPropertiesChanged(host, [ChildrenDisplay], proxy);
        RemovedItemSignals(host, Targets(items), old(revision), propertySubscribers, layoutSubscribers, item);
      }
    }

    /** `mMenuItemList[mMenuItemList.IndexOf(proxy)] = null` for an item
        proxy just fetched from the cache, which grew from `cached`; an
        unregistered proxy gives index -1, which throws. */
    method Unregister(proxy: Proxy, ghost cached: map<Handle, Proxy>) returns (r: Outcome)
      requires cache.Valid() && Registry(items, cached, menu) && Kept(cached, cache.proxies)
      requires 0 <= revision < RevisionModulus
      requires proxy.target.ToolStripItem? && proxy.target.item in cache.proxies && cache.proxies[proxy.target.item] == proxy
      modifies this`items
      ensures Valid()
      ensures Some(proxy.target) !in old(Targets(items)) ==> r == Fail(ArgumentOutOfRange) && items == old(items)
      ensures Some(proxy.target) in old(Targets(items)) ==>
        && r == Pass
        && Targets(items) == old(Targets(items))[IndexOf(old(Targets(items)), Some(proxy.target)) := None]
        && Some(proxy.target) !in Targets(items)
      ensures IndexOf(Targets(items), Some(proxy.target)) == -1
    {
      RegistryKept(items, cached, cache.proxies, menu);
      IndexOfProxy(items, cache.proxies, menu, Some(proxy));
      var itemIndex := IndexOf(items, Some(proxy));
      if itemIndex < 0 {
        return Fail(ArgumentOutOfRange);
      }
      ghost var targets := Targets(items);
      RegistryTombstone(items, cache.proxies, menu, itemIndex);
      TombstonedHasNoId(targets, itemIndex);
      items := items[itemIndex := None];
      r := Pass;
    }

    /** The handlers of TextChanged, EnabledChanged, AvailableChanged and (for
        a menu item) CheckStateChanged, wired for items whose proxy was cached
        while walking the menu: announce the changed properties. */
    method OnItemChanged(host: Host, item: Handle, change: Change)
      requires Valid() && item in cache.proxies
      modifies this`signals, this`revision
      ensures Valid()
      ensures signals == old(signals) + ChangeSignals(host, Targets(items), old(revision), propertySubscribers, layoutSubscribers,
                                                      ToolStripItem(item), ChangedProps(host, item, change))
      ensures revision == Advance(old(revision), layoutSubscribers)
    {
      OnItemPropertiesChanged(host, ChangedProps(host, item, change), cache.proxies[item]);
    }

    /** OnItemPropertiesChanged: one update holding each named property's
        current value to every ItemsPropertiesUpdated subscriber, then
        LayoutUpdated for the proxy's slot.  Each property is added to the map
        once (Dictionary.Add would throw on a repeat). */
    method OnItemPropertiesChanged(host: Host, ps: seq<Prop>, proxy: Proxy)
      requires Valid() && Known(items, cache.proxies, proxy)
      requires forall i, j :: 0 <= i < j < |ps| ==> ps[i] != ps[j]
      modifies this`signals, this`revision
      ensures Valid()
      ensures signals == old(signals) + ChangeSignals(host, Targets(items), old(revision), propertySubscribers, layoutSubscribers,
                                                      proxy.target, ps)
      ensures revision == Advance(old(revision), layoutSubscribers)
    {
      IndexOfProxy(items, cache.proxies, menu, Some(proxy));
      ghost var id' := IndexOf(Targets(items), Some(proxy.target));
      var properties := PropertyValues(host, proxy.target, ps);
      var id := IndexOf(items, Some(proxy));
      OnItemsPropertiesUpdated([ItemProperties(id, properties)]);
      ghost var updated := signals;
      OnLayoutUpdated(id);
      assert signals == updated + LayoutDeliveries(old(revision), id', layoutSubscribers);
    }

    /** The loop of OnItemPropertiesChanged: GetValue of each property's
        display name, added to the update map under that name. */
    method PropertyValues(host: Host, t: Target, ps: seq<Prop>) returns (properties: map<string, Value>)
      ensures properties == Diff(host, t, ps)
    {
      properties := map[];
      var i := 0;
      while i < |ps|
        invariant 0 <= i <= |ps|
        invariant properties == Diff(host, t, ps[..i])
      {
        var value := GetValue(host, t, DisplayName(ps[i]));
        GetValueSpec(host, t, DisplayName(ps[i]), ps[i]);
        assert ps[..i + 1][..i] == ps[..i];
        properties := properties[DisplayName(ps[i]) := value.value];
        i := i + 1;
      }
      assert ps[..i] == ps;
    }

    /** OnItemsPropertiesUpdated: one delivery per subscriber. */
    method OnItemsPropertiesUpdated(updated: seq<ItemProperties>)
      modifies this`signals
      ensures signals == old(signals) + PropertyDeliveries(updated, propertySubscribers)
    {
      var i := 0;
      while i < propertySubscribers
        invariant 0 <= i <= propertySubscribers
        invariant signals == old(signals) + PropertyDeliveries(updated, i)
      {
        signals := signals + [ItemsPropertiesUpdated(updated)];
        i := i + 1;
      }
    }

    /** OnLayoutUpdated: each subscriber gets the current revision, which is
        then incremented (as a uint). */
    method OnLayoutUpdated(parent: int)
      requires 0 <= revision < RevisionModulus
      modifies this`signals, this`revision
      ensures 0 <= revision < RevisionModulus
      ensures signals == old(signals) + LayoutDeliveries(old(revision), parent, layoutSubscribers)
      ensures revision == Advance(old(revision), layoutSubscribers)
    {
      var i := 0;
      while i < layoutSubscribers
        invariant 0 <= i <= layoutSubscribers
        invariant signals == old(signals) + LayoutDeliveries(old(revision), parent, i)
        invariant revision == Advance(old(revision), i)
      {
        signals := signals + [LayoutUpdated(revision, parent)];
        ModSucc(old(revision) + i);
        revision := (revision + 1) % RevisionModulus;
        i := i + 1;
        assert LayoutDeliveries(old(revision), parent, i) == LayoutDeliveries(old(revision), parent, i - 1)
          + [LayoutUpdated(Advance(old(revision), i - 1), parent)];
      }
    }

    /** A client subscribes to ItemsPropertiesUpdated. */
    method SubscribeItemsPropertiesUpdated()
      modifies this`propertySubscribers
      ensures propertySubscribers == old(propertySubscribers) + 1
    {
      propertySubscribers := propertySubscribers + 1;
    }

    /** A client subscribes to LayoutUpdated. */
    method SubscribeLayoutUpdated()
      modifies this`layoutSubscribers
      ensures layoutSubscribers == old(layoutSubscribers) + 1
    {
      layoutSubscribers := layoutSubscribers + 1;
    }

    /** GetLayout: the current revision and the layout below `parentId`; an
        id outside the registry throws, and so does a layout that throws.
        Building the layout may cache proxies, but never replaces one. */
    method GetLayout(host: Host, parentId: int, recursionDepth: int, propertyNames: seq<string>) returns (r: Result<LayoutReply>)
      requires WellFormed(host) && Valid()
      modifies cache
      ensures Valid() && Kept(old(cache.proxies), cache.proxies)
      ensures !(0 <= parentId < |items|) ==> r == Err(ArgumentOutOfRange)
      ensures 0 <= parentId < |items| ==>
        r == Stamped(revision, LayoutOf(host, Targets(items), Targets(items)[parentId], 0, recursionDepth, PropsOf(host, Requested(propertyNames))))
    {
      if !(0 <= parentId < |items|) {
        return Err(ArgumentOutOfRange);
      }
      var names := Requested(propertyNames);
      var layout := CreateMenuItemLayout(host, items[parentId], 0, recursionDepth, names);
      r := Stamped(revision, layout);
    }

    /** CreateMenuItemLayout of the proxy in a slot (or of a child proxy). */
    method CreateMenuItemLayout(host: Host, item: Option<Proxy>, depth: int, maxDepth: int, names: seq<string>)
      returns (r: Result<Layout>)
      requires WellFormed(host) && Valid()
      requires item.Some? ==> Known(items, cache.proxies, item.value)
      modifies cache
      ensures Valid() && Kept(old(cache.proxies), cache.proxies)
      ensures r == LayoutOf(host, Targets(items), TargetOf(item), depth, maxDepth, PropsOf(host, names))
      decreases TargetRank(host, TargetOf(item)), 1, 1
    {
      IndexOfProxy(items, cache.proxies, menu, item);
      var id := IndexOf(items, item);
      var properties := TargetProps(host, TargetOf(item), names);
      if !(maxDepth < 0 || depth < maxDepth) {
        return Ok(Layout(id, properties, []));
      }
      if item.None? {
        return Err(NullReference);
      }
      var children := ChildLayoutsOf(host, item.value, depth, maxDepth, names);
      if children.Err? {
        return Err(children.error);
      }
      r := Ok(Layout(id, properties, children.value));
    }

    /** The part of CreateMenuItemLayout below a proxy whose children are
        asked for: its child proxies from the cache, then their layouts. */
    method ChildLayoutsOf(host: Host, p: Proxy, depth: int, maxDepth: int, names: seq<string>)
      returns (r: Result<seq<Layout>>)
      requires WellFormed(host) && Valid() && Known(items, cache.proxies, p)
      requires maxDepth < 0 || depth < maxDepth
      modifies cache
      ensures Valid() && Kept(old(cache.proxies), cache.proxies)
      ensures LayoutOf(host, Targets(items), Some(p.target), depth, maxDepth, PropsOf(host, names))
        == match r
           case Err(e) => Err(e)
           case Ok(children) => Ok(Layout(IndexOf(Targets(items), Some(p.target)), TargetProps(host, Some(p.target), names), children))
      decreases TargetRank(host, Some(p.target)), 1, 0
    {
      var t := p.target;
      ghost var cached := cache.proxies;
      var children := cache.GetChildren(host, p);
      RegistryKept(items, cached, cache.proxies, menu);
      if children.Err? {
        return Err(children.error);
      }
      LayoutOfChildren(host, Targets(items), t, depth, maxDepth, PropsOf(host, names));
      r := CreateChildLayouts(host, children.value, Visited(host, t), depth + 1, maxDepth, names, TargetRank(host, Some(t)));
    }

    /** The loop of CreateMenuItemLayout over the child proxies, which are
        the cached proxies of the items `cs`. */
    method CreateChildLayouts(host: Host, proxies: seq<Proxy>, ghost cs: seq<Handle>,
                              depth: int, maxDepth: int, names: seq<string>, ghost bound: nat)
      returns (r: Result<seq<Layout>>)
      requires WellFormed(host) && Valid()
      requires |proxies| == |cs|
      requires forall i :: 0 <= i < |cs| ==> cs[i] in cache.proxies && proxies[i] == cache.proxies[cs[i]]
      requires forall c :: c in cs ==> Height(host, c) < bound
      modifies cache
      ensures Valid() && Kept(old(cache.proxies), cache.proxies)
      ensures r == ChildLayouts(host, Targets(items), cs, depth, maxDepth, PropsOf(host, names), bound)
      decreases bound, 0, 0
    {
      var childList: seq<Layout> := [];
      var i := 0;
      while i < |proxies|
        invariant 0 <= i <= |proxies|
        invariant Valid() && Kept(old(cache.proxies), cache.proxies)
        invariant ChildLayouts(host, Targets(items), cs[..i], depth, maxDepth, PropsOf(host, names), bound) == Ok(childList)
      {
        assert cs[..i + 1][..i] == cs[..i];
        assert cs[i] in cs;
        assert forall c :: c in cs[..i + 1] ==> c in cs;
        var child := CreateMenuItemLayout(host, Some(proxies[i]), depth, maxDepth, names);
        ChildLayoutsLast(host, Targets(items), cs[..i + 1], depth, maxDepth, PropsOf(host, names), bound);
        if child.Err? {
          ChildLayoutsStopsAtError(host, Targets(items), cs, depth, maxDepth, PropsOf(host, names), bound, i + 1);
          return Err(child.error);
        }
        childList := childList + [child.value];
        i := i + 1;
      }
      assert cs[..i] == cs;
      r := Ok(childList);
    }

    /** GetGroupProperties: one entry per id, in request order, echoing the
        id; an empty slot's entry has no properties; any id outside the
        registry makes the whole call throw. */
    method GetGroupProperties(host: Host, ids: seq<int>, propertyNames: seq<string>) returns (r: Result<seq<ItemProperties>>)
      ensures r.Ok? <==> forall i :: 0 <= i < |ids| ==> 0 <= ids[i] < |items|
      ensures r.Err? ==> r.error == ArgumentOutOfRange
      ensures r.Ok? ==> |r.value| == |ids| && forall i :: 0 <= i < |ids| ==>
        && 0 <= ids[i] < |items|
        && r.value[i] == ItemProperties(ids[i], TargetProps(host, TargetOf(items[ids[i]]), Requested(propertyNames)))
    {
      var names := Requested(propertyNames);
      var itemList: seq<ItemProperties> := [];
      var i := 0;
      while i < |ids|
        invariant 0 <= i <= |ids|
        invariant forall j :: 0 <= j < i ==> 0 <= ids[j] < |items|
        invariant |itemList| == i
        invariant forall j :: 0 <= j < i ==> itemList[j] == ItemProperties(ids[j], TargetProps(host, TargetOf(items[ids[j]]), names))
      {
        if !(0 <= ids[i] < |items|) {
          return Err(ArgumentOutOfRange);
        }
        itemList := itemList + [ItemProperties(ids[i], TargetProps(host, TargetOf(items[ids[i]]), names))];
        i := i + 1;
      }
      r := Ok(itemList);
    }

    /** GetProperty: GetValue on the proxy in slot `id`. */
    function GetProperty(host: Host, id: int, name: string): (r: Result<Value>)
      reads this
      ensures !(0 <= id < |items|) ==> r == Err(ArgumentOutOfRange)
      ensures 0 <= id < |items| && items[id].None? ==> r == Err(NullReference)
      ensures 0 <= id < |items| && items[id].Some? ==>
        && (r.Ok? <==> DefaultMenuItemProxy.ResolveProperty(name).Some?)
        && (r.Ok? ==> r.value == PropertyValue(host, items[id].value.target, DefaultMenuItemProxy.ResolveProperty(name).value))
    {
      if 0 <= id < |items| then ValueOf(host, TargetOf(items[id]), name) else Err(ArgumentOutOfRange)
    }

    /** Event: the proxy in slot `id` handles the event; a completed click is
        logged; see EventOutcome. */
    method Event(id: int, eventId: string, perform: Handle -> Outcome) returns (r: Outcome)
      modifies this`clicked
      ensures EventOutcome(Targets(items), id, eventId, perform).Err? ==> r == Fail(EventOutcome(Targets(items), id, eventId, perform).error)
      ensures EventOutcome(Targets(items), id, eventId, perform).Ok? ==> r == Pass
      ensures clicked == old(clicked) + ClickOf(EventOutcome(Targets(items), id, eventId, perform))
    {
      if !(0 <= id < |items|) {
        return Fail(ArgumentOutOfRange);
      }
      var item := items[id];
      if item.None? {
        return Fail(NullReference);
      }
      var click := OnEvent(item.value.target, eventId);
      if click.Some? {
        var performed := perform(click.value);
        if performed.Fail? {
          return performed;
        }
        clicked := clicked + [click.value];
      }
      r := Pass;
    }

    /** EventGroup: every event is attempted; the ids of those that throw are
        returned in order. */
    method EventGroup(events: seq<MenuEvent>, perform: Handle -> Outcome) returns (errors: seq<int>)
      modifies this`clicked
      ensures var reg := Targets(items); errors == FailedIds(events, Failures(reg, perform))
      ensures var reg := Targets(items); clicked == old(clicked) + Clicks(events, Outcomes(reg, perform))
    {
      ghost var reg := Targets(items);
      ghost var outcome := Outcomes(reg, perform);
      ghost var fails := Failures(reg, perform);
      errors := [];
      var i := 0;
      while i < |events|
        invariant 0 <= i <= |events|
        invariant errors == FailedIds(events[..i], fails)
        invariant clicked == old(clicked) + Clicks(events[..i], outcome)
      {
        var e := events[i];
        var res := Event(e.id, e.eventId, perform);
        assert outcome(e) == EventOutcome(reg, e.id, e.eventId, perform);
        assert fails(e) == res.Fail?;
        FailedIdsStep(events[..i], e, fails);
        ClicksStep(events[..i], e, outcome);
        PrefixStep(events, i);
        if res.Fail? {
          errors := errors + [e.id];
        }
        i := i + 1;
      }
      assert events[..i] == events;
    }

    /** AboutToShow of the proxy in slot `id`: never asks for an update. */
    function AboutToShow(id: int): (r: Result<bool>)
      reads this
      ensures r.Ok? ==> !r.value
      ensures r.Ok? <==> 0 <= id < |items| && items[id].Some?
      ensures !(0 <= id < |items|) ==> r == Err(ArgumentOutOfRange)
    {
      AboutToShowAt(Targets(items), id)
    }

    /** AboutToShowGroup: no id needs an update; the ids that throw are
        returned in order. */
    method AboutToShowGroup(ids: seq<int>) returns (updatesNeeded: seq<int>, idErrors: seq<int>)
      ensures updatesNeeded == []
      ensures var reg := Targets(items); idErrors == Filter(ids, id => AboutToShowAt(reg, id).Err?)
      ensures forall id :: id in idErrors <==> id in ids && !(0 <= id < |items| && items[id].Some?)
    {
      var reg := Targets(items);
      var fails := id => AboutToShowAt(reg, id).Err?;
      updatesNeeded, idErrors := [], [];
      var i := 0;
      while i < |ids|
        invariant 0 <= i <= |ids|
        invariant updatesNeeded == []
        invariant idErrors == Filter(ids[..i], fails)
      {
        assert ids[..i + 1][..i] == ids[..i];
        var show := AboutToShow(ids[i]);
        if show.Err? {
          idErrors := idErrors + [ids[i]];
        } else if show.value {
          updatesNeeded := updatesNeeded + [ids[i]];
        }
        i := i + 1;
      }
      assert ids[..i] == ids;
      FilterSpec(ids, fails);
    }
  }
}
