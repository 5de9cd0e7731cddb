/** The first server revision: the registry holds the WinForms items
    themselves, and the server computes every property value and default test
    on its own. */
module WinformsDBusMenu {
  import opened Wrappers
  import opened HostMenu
  import opened MenuItemSchema
  import opened DBusMenuProtocol
  import opened ToolStripItemProxy

  /** The names sent when a request names no property. */
  const SupportedMenuItemProperties: seq<string> :=
    ["type", "label", "enabled", "visible", "icon-name", "icon-data", "shortcut",
     "toggle-type", "toggle-state", "children-display", "disposition", "accessible-desc"]

  /** The supported names are the twelve display names, in schema order. */
  lemma SupportedAreTheDisplayNames()
    ensures |SupportedMenuItemProperties| == |AllProps|
    ensures forall i :: 0 <= i < |AllProps| ==> SupportedMenuItemProperties[i] == DisplayName(AllProps[i])
    ensures forall name :: name in SupportedMenuItemProperties <==> PropOfDisplayName(name).Some?
  {
    forall i | 0 <= i < |AllProps| ensures SupportedMenuItemProperties[i] == DisplayName(AllProps[i]) {
    }
    forall name | name in SupportedMenuItemProperties ensures PropOfDisplayName(name).Some? {
      var i :| 0 <= i < |AllProps| && SupportedMenuItemProperties[i] == name;
      DisplayNameLookup(name, AllProps[i]);
    }
    forall name | PropOfDisplayName(name).Some? ensures name in SupportedMenuItemProperties {
      var p := PropOfDisplayName(name).value;
      AllPropsCover(p);
      var i :| 0 <= i < |AllProps| && AllProps[i] == p;
      assert SupportedMenuItemProperties[i] == DisplayName(AllProps[i]);
    }
  }

  /** The property names a request asks for. */
  function Requested(propertyNames: seq<string>): seq<string> {
    if |propertyNames| == 0 then SupportedMenuItemProperties else propertyNames
  }

  /** The state of the item in a registry slot; None for an empty slot. */
  function NodeOf(host: Host, item: Option<Handle>): Option<Node> {
    match item
    case None => None
    case Some(h) => Some(host.node(h))
  }

  /** GetItemProperty: a switch on the exact display name. */
  function GetItemProperty(item: Option<Node>, name: Option<string>): Result<Value> {
    if item.None? || name.None? then Err(ArgumentNull)
    else match PropOfDisplayName(name.value)
      case None => Err(Argument)
      case Some(p) => Ok(ItemValue(item.value, p))
  }

  /** A live item has a value for every display name and only for those. */
  lemma GetItemPropertySpec(n: Node, name: string, p: Prop)
    ensures GetItemProperty(Some(n), Some(name)).Ok? <==> PropOfDisplayName(name).Some?
    ensures name == DisplayName(p) ==> GetItemProperty(Some(n), Some(name)) == Ok(ItemValue(n, p))
  {
    DisplayNameLookup(name, p);
  }

  /** IsDefaultValue: a switch on the exact display name comparing with the
      literal defaults; `icon-data` wants an empty byte[], `shortcut` a
      string[][] whose first row is empty (an empty string[][] has no first
      row and throws). */
  function IsDefaultValue(name: Option<string>, value: Option<Value>): Result<bool> {
    if name.None? || value.None? then Err(ArgumentNull)
    else
      var v := value.value;
      match PropOfDisplayName(name.value)
      case None => Err(Argument)
      case Some(IconData) => Ok(v.Bytes? && |v.bytes| == 0)
      case Some(Shortcut) =>
        if !v.StringRows? then Ok(false)
        else if |v.rows| == 0 then Err(IndexOutOfRange)
        else Ok(|v.rows[0]| == 0)
      case Some(p) => Ok(v == DefaultValue(p))
  }

  /** Under each display name IsDefaultValue accepts exactly that property's
      default; any other name throws. */
  lemma IsDefaultValueSpec(name: string, p: Prop, v: Value)
    ensures PropOfDisplayName(name).None? ==> IsDefaultValue(Some(name), Some(v)) == Err(Argument)
    ensures p != Shortcut ==> (IsDefaultValue(Some(DisplayName(p)), Some(v)) == Ok(true) <==> v == DefaultValue(p))
    ensures IsDefaultValue(Some(DisplayName(Shortcut)), Some(v)) == Ok(true) <==> v.StringRows? && |v.rows| > 0 && v.rows[0] == []
  {
    DisplayNameLookup(DisplayName(p), p);
    DisplayNameLookup(DisplayName(Shortcut), Shortcut);
  }

  /** On the values of a live item, IsDefaultValue decides exactly the default
      state of the item. */
  lemma ItemValueIsDefault(n: Node, p: Prop)
    ensures IsDefaultValue(Some(DisplayName(p)), Some(ItemValue(n, p))) == Ok(IsDefaultState(n, p))
  {
    DisplayNameLookup(DisplayName(p), p);
    ItemValueDefaultState(n, p);
  }

  /** The sparse property map of the item in a slot: for each requested
      name in turn, the value is fetched and added unless it is default; a
      name whose lookup or default test throws is skipped, and so is a name
      added before (Dictionary.Add throws on a repeated key). */
  function ItemProps(host: Host, item: Option<Handle>, names: seq<string>): map<string, Value> {
    if names == [] then map[]
    else
      var m := ItemProps(host, item, names[..|names| - 1]);
      var name := names[|names| - 1];
      match GetItemProperty(NodeOf(host, item), Some(name))
      case Err(_) => m
      case Ok(v) => if IsDefaultValue(Some(name), Some(v)) != Ok(false) || name in m then m else m[name := v]
  }

  /** A live item's map holds exactly the requested display names whose
      property is not in its default state, with the item's values; an empty
      slot's map is empty (every lookup throws and is skipped). */
  lemma {:induction false} ItemPropsSpec(host: Host, item: Option<Handle>, names: seq<string>)
    ensures item.None? ==> ItemProps(host, item, names) == map[]
    ensures item.Some? ==> forall k :: k in ItemProps(host, item, names) <==>
      k in names && PropOfDisplayName(k).Some? && !IsDefaultState(host.node(item.value), PropOfDisplayName(k).value)
    ensures item.Some? ==> forall k :: k in ItemProps(host, item, names) ==>
      ItemProps(host, item, names)[k] == ItemValue(host.node(item.value), PropOfDisplayName(k).value)
  {
    if names != [] {
      var init, name := names[..|names| - 1], names[|names| - 1];
      ItemPropsSpec(host, item, init);
      assert forall k :: k in names <==> k in init || k == name;
      if item.Some? && PropOfDisplayName(name).Some? {
        var p := PropOfDisplayName(name).value;
        DisplayNameLookup(name, p);
        ItemValueIsDefault(host.node(item.value), p);
      }
    }
  }

  /** CreateMenuItemLayout: the item's id and sparse properties, and, while
      the depth bound allows, the layouts of its drop-down items in order. */
  function LayoutOf(host: Host, reg: seq<Option<Handle>>, item: Option<Handle>,
                    depth: int, maxDepth: int, names: seq<string>): Layout
    requires WellFormed(host)
    decreases if item.Some? then Height(host, item.value) else 0
  {
    var children :=
      if (maxDepth < 0 || depth < maxDepth) && item.Some? then
        var cs := DropDownItems(host, item.value);
        seq(|cs|, i requires 0 <= i < |cs| =>
          LayoutOf(host, reg, Some(cs[i]), depth + 1, maxDepth, names))
      else [];
    Layout(IndexOf(reg, item), ItemProps(host, item, names), children)
  }

  /** `l` is the layout of item `h` cut `k` levels below it (never cut when
      `k` is negative): ids from the registry, the item's sparse properties,
      children in host drop-down order. */
  ghost predicate Mirrors(host: Host, reg: seq<Option<Handle>>, l: Layout, h: Handle, names: seq<string>, k: int)
    requires WellFormed(host)
    decreases Height(host, h)
  {
    var cs := DropDownItems(host, h);
    l.id == IndexOf(reg, Some(h)) && l.properties == ItemProps(host, Some(h), names)
    && (k == 0 ==> l.children == [])
    && (k != 0 ==> |l.children| == |cs|)
    && (k != 0 ==> forall i :: 0 <= i < |cs| && i < |l.children| ==>
                     Mirrors(host, reg, l.children[i], cs[i], names, Below(k)))
  }

  /** The depth rule: a recursion depth of -1 (any negative) yields the whole
      subtree, a depth n >= 0 yields exactly n levels below the item; 0 yields
      no children. */
  lemma {:induction false} LayoutMirrorsHost(host: Host, reg: seq<Option<Handle>>, h: Handle,
                                             depth: int, maxDepth: int, names: seq<string>)
    requires WellFormed(host)
    requires maxDepth < 0 || depth <= maxDepth
    ensures Mirrors(host, reg, LayoutOf(host, reg, Some(h), depth, maxDepth, names), h, names, Levels(depth, maxDepth))
    decreases Height(host, h)
  {
    var l := LayoutOf(host, reg, Some(h), depth, maxDepth, names);
    var cs := DropDownItems(host, h);
    if maxDepth < 0 || depth < maxDepth {
      LevelsBelow(depth, maxDepth);
      forall i | 0 <= i < |cs| ensures Mirrors(host, reg, l.children[i], cs[i], names, Levels(depth + 1, maxDepth)) {
        HeightDecreases(host, h, cs[i]);
        LayoutMirrorsHost(host, reg, cs[i], depth + 1, maxDepth, names);
      }
    }
  }

  /** A registered item's layout carries its slot as id; an empty slot's layout
      carries the first empty slot's index, no properties and no children. */
  lemma LayoutOfSlot(host: Host, reg: seq<Option<Handle>>, i: int, depth: int, maxDepth: int, names: seq<string>)
    requires WellFormed(host)
    requires NoDuplicates(reg) && 0 <= i < |reg|
    ensures reg[i].Some? ==> LayoutOf(host, reg, reg[i], depth, maxDepth, names).id == i
    ensures reg[i].None? ==>
      var l := LayoutOf(host, reg, reg[i], depth, maxDepth, names);
      l.id == IndexOf(reg, None) && 0 <= l.id <= i && l.properties == map[] && l.children == []
  {
    if reg[i].Some? {
      IndexOfRegistered(reg, i);
    } else {
      ItemPropsSpec(host, None, names);
    }
  }

  /** Event: the clicked item, if any.  An id outside the registry throws,
      and so does a click on an empty slot.  `perform` gives, for each item,
      what InvokeParentForm(() => item.PerformClick()) does: Pass, or the
      exception it raises (a form that FindForm did not find, a throwing Click
      handler rethrown by Invoke).  Other event ids are ignored. */
  function EventOutcome(reg: seq<Option<Handle>>, id: int, eventId: string, perform: Handle -> Outcome): Result<Option<Handle>> {
    if !(0 <= id < |reg|) then Err(ArgumentOutOfRange)
    else if eventId == "clicked" then
      if reg[id].None? then Err(NullReference) else ClickResult(reg[id].value, perform(reg[id].value))
    else Ok(None)
  }

  /** The outcome of each event of a batch, against the registry `reg`. */
  function Outcomes(reg: seq<Option<Handle>>, perform: Handle -> Outcome): MenuEvent -> Result<Option<Handle>> {
    (e: MenuEvent) => EventOutcome(reg, e.id, e.eventId, perform)
  }

  /** Whether an event of a batch throws, against the registry `reg`. */
  function Failures(reg: seq<Option<Handle>>, perform: Handle -> Outcome): MenuEvent -> bool {
    (e: MenuEvent) => EventOutcome(reg, e.id, e.eventId, perform).Err?
  }

  /** A batch clicks exactly the live items named by its "clicked" entries
      whose click completes. */
  lemma ClickedItems(reg: seq<Option<Handle>>, perform: Handle -> Outcome, events: seq<MenuEvent>)
    ensures forall h :: h in Clicks(events, Outcomes(reg, perform)) <==>
      exists e :: e in events && e.eventId == "clicked" && 0 <= e.id < |reg| && reg[e.id] == Some(h) && perform(h).Pass?
  {
    ClicksSpec(events, Outcomes(reg, perform));
  }

  /** EventGroup reports an id iff some event with that id names no slot,
      or clicks an empty slot, or clicks an item whose click throws. */
  lemma FailedEvents(reg: seq<Option<Handle>>, perform: Handle -> Outcome, events: seq<MenuEvent>)
    ensures forall x :: x in FailedIds(events, Failures(reg, perform)) <==>
      exists e :: e in events && e.id == x &&
        (!(0 <= x < |reg|) || (e.eventId == "clicked" && (reg[x].None? || perform(reg[x].value).Fail?)))
  {
    FailedIdsSpec(events, [], Failures(reg, perform));
  }

  /** AboutToShow: true for a live item; reading the item's name throws for
      an empty slot, and an id outside the registry throws. */
  function AboutToShowAt(reg: seq<Option<Handle>>, id: int): Result<bool> {
    if !(0 <= id < |reg|) then Err(ArgumentOutOfRange)
    else if reg[id].None? then Err(NullReference)
    else Ok(true)
  }

  /** The server object.  `items` is mMenuItemList, whose index is the
      protocol id; `signals` holds every signal delivery in order, one per
      subscriber; `clicked` logs the items clicked through Event. */
  class Server {
    var items: seq<Option<Handle>>
    var revision: int
    var propertySubscribers: nat
    var layoutSubscribers: nat
    var signals: seq<Signal>
    var clicked: seq<Handle>

    /** No item is registered twice, and the revision is a uint. */
    ghost predicate Valid()
      reads this`items, this`revision
    {
      NoDuplicates(items) && 0 <= revision < RevisionModulus
    }

    /** The constructor: the synthetic root item at index 0, then every item
        that `menu.Items` still holds after the AddRange, in depth-first
        pre-order, each once.  `host` is the state after the AddRange and
        `menuItems` what `menu.Items` then yields. */
    constructor (host: Host, menuItems: seq<Handle>, root: Handle)
      requires WellFormed(host)
      ensures Valid()
      ensures items == AddAll([Some(root)], PreOrder(host, menuItems))
      ensures items[0] == Some(root)
      ensures forall h :: Some(h) in items <==> h == root || h in PreOrder(host, menuItems)
      ensures revision == 0 && propertySubscribers == 0 && layoutSubscribers == 0
      ensures signals == [] && clicked == []
    {
      items := [Some(root)];
      revision := 0;
      propertySubscribers := 0;
      layoutSubscribers := 0;
      signals := [];
      clicked := [];
      new;
      AddItemsToMenuItemList(host, menuItems);
      AddAllSpec([Some(root)], PreOrder(host, menuItems));
    }

    /** AddItemsToMenuItemList: walk the items and, below each drop-down item,
        its drop-down items, appending each item not yet registered. */
    method AddItemsToMenuItemList(host: Host, hs: seq<Handle>)
      requires WellFormed(host)
      modifies this`items
      ensures items == AddAll(old(items), PreOrder(host, hs))
      decreases Bound(host, hs)
    {
      var i := 0;
      while i < |hs|
        invariant 0 <= i <= |hs|
        invariant items == AddAll(old(items), PreOrder(host, hs[..i]))
      {
        var h := hs[i];
        ghost var before := items;
        if Some(h) !in items {
          items := items + [Some(h)];
        }
        assert items == AddAll(before, [h]);
        BoundAbove(host, hs);
        ChildrenBound(host, h);
        AddItemsToMenuItemList(host, DropDownItems(host, h));
        PreOrderStep(host, hs, i);
        AddAllAppend(old(items), PreOrder(host, hs[..i]), [h] + PreOrder(host, DropDownItems(host, h)));
        AddAllAppend(before, [h], PreOrder(host, DropDownItems(host, h)));
        i := i + 1;
      }
      assert hs[..i] == hs;
    }

    /** ItemAdded of a drop-down item `owner`: register the added item if
        absent; when it is the owner's only item, announce the added item's
        `children-display`. */
    method OnItemAdded(host: Host, owner: Handle, item: Handle)
      requires Valid()
      modifies this`items, this`signals, this`revision
      ensures Valid()
      ensures items == AddIfAbsent(old(items), item)
      ensures |DropDownItems(host, owner)| == 1 ==>
        signals == old(signals) + PropertyUpdateSignals(host, items, old(revision), propertySubscribers, layoutSubscribers, item, ChildrenDisplay)
      ensures |DropDownItems(host, owner)| != 1 ==> signals == old(signals) && revision == old(revision)
      ensures |DropDownItems(host, owner)| == 1 ==> revision == Advance(old(revision), layoutSubscribers)
    {
      AddAllSpec(items, [item]);
      items := AddIfAbsent(items, item);
      if |DropDownItems(host, owner)| == 1 {
        OnItemPropertyUpdated(host, item, ChildrenDisplay);
      }
    }

    /** ItemRemoved of a drop-down item `owner`: empty the removed item's slot,
        so that no other id moves; an item that is not registered makes the
        slot index -1 and throws.  The slot is emptied before the signal is
        built, so when the owner has no items left the `children-display`
        update and the LayoutUpdated carry id -1. */
    method OnItemRemoved(host: Host, owner: Handle, item: Handle) returns (r: Outcome)
      requires Valid()
      modifies this`items, this`signals, this`revision
      ensures Valid()
      ensures Some(item) !in old(items) ==> r == Fail(ArgumentOutOfRange) && items == old(items)
      ensures Some(item) !in old(items) ==> signals == old(signals) && revision == old(revision)
      ensures Some(item) in old(items) ==> r == Pass
      ensures Some(item) in old(items) ==> items == old(items)[IndexOf(old(items), Some(item)) := None]
      ensures Some(item) in old(items) ==> Some(item) !in items && |items| == |old(items)|
      ensures Some(item) in old(items) && |DropDownItems(host, owner)| == 0 ==>
        signals == old(signals) + PropertyUpdateSignals(host, items, old(revision), propertySubscribers, layoutSubscribers, item, ChildrenDisplay)
        && PropertyUpdateSignals(host, items, old(revision), propertySubscribers, layoutSubscribers, item, ChildrenDisplay)
           == PropertyDeliveries([ItemProperties(-1, map[DisplayName(ChildrenDisplay) := ItemValue(host.node(item), ChildrenDisplay)])],
                                 propertySubscribers)
              + LayoutDeliveries(old(revision), -1, layoutSubscribers)
      ensures Some(item) in old(items) && |DropDownItems(host, owner)| == 0 ==> revision == Advance(old(revision), layoutSubscribers)
      ensures Some(item) in old(items) && |DropDownItems(host, owner)| != 0 ==> signals == old(signals) && revision == old(revision)
    {
      var itemIndex := IndexOf(items, Some(item));
      if itemIndex < 0 {
        return Fail(ArgumentOutOfRange);
      }
      TombstonedHasNoId(items, itemIndex);
      items := items[itemIndex := None];
      r := Pass;
      if |DropDownItems(host, owner)| == 0 {
        OnItemPropertyUpdated(host, item, ChildrenDisplay);
      }
    }

    /** The handlers of TextChanged, EnabledChanged, AvailableChanged and (for
        a menu item) CheckStateChanged: announce the one changed property. */
    method OnItemChanged(host: Host, item: Handle, change: Change)
      requires Valid()
      modifies this`signals, this`revision
      ensures Valid()
      ensures signals == old(signals) + PropertyUpdateSignals(host, items, old(revision), propertySubscribers, layoutSubscribers, item, ChangedProp(change))
      ensures revision == Advance(old(revision), layoutSubscribers)
    {
      OnItemPropertyUpdated(host, item, ChangedProp(change));
    }

    /** OnItemPropertyUpdated: a one-item, one-property update to every
        ItemsPropertiesUpdated subscriber, then LayoutUpdated for the item. */
    method OnItemPropertyUpdated(host: Host, item: Handle, p: Prop)
      requires Valid()
      modifies this`signals, this`revision
      ensures Valid()
      ensures signals == old(signals) + PropertyUpdateSignals(host, items, old(revision), propertySubscribers, layoutSubscribers, item, p)
      ensures revision == Advance(old(revision), layoutSubscribers)
    {
      var id := IndexOf(items, Some(item));
      var update := ItemProperties(id, map[DisplayName(p) := ItemValue(host.node(item), p)]);
      AnnounceUpdate(update);
    }

    /** The two announcements of OnItemPropertyUpdated: the update to every
        property subscriber, then LayoutUpdated naming the updated item. */
    method AnnounceUpdate(update: ItemProperties)
      requires 0 <= revision < RevisionModulus
      modifies this`signals, this`revision
      ensures 0 <= revision < RevisionModulus
      ensures signals == old(signals) + (PropertyDeliveries([update], propertySubscribers)
        + LayoutDeliveries(old(revision), update.id, layoutSubscribers))
      ensures revision == Advance(old(revision), layoutSubscribers)
    {
      OnItemsPropertiesUpdated([update]);
      ghost var updated := signals;
      OnLayoutUpdated(update.id);
      assert signals == updated + LayoutDeliveries(old(revision), update.id, layoutSubscribers);
    }

    /** OnItemsPropertiesUpdated: one delivery per subscriber. */
    method OnItemsPropertiesUpdated(updated: seq<ItemProperties>)
      modifies this`signals
      ensures signals == old(signals) + PropertyDeliveries(updated, propertySubscribers)
    {
      var i := 0;
      while i < propertySubscribers
        invariant 0 <= i <= propertySubscribers
        invariant signals == old(signals) + PropertyDeliveries(updated, i)
      {
        signals := signals + [ItemsPropertiesUpdated(updated)];
        i := i + 1;
      }
    }

    /** OnLayoutUpdated: each subscriber gets the current revision, which is
        then incremented (as a uint). */
    method OnLayoutUpdated(parent: int)
      requires 0 <= revision < RevisionModulus
      modifies this`signals, this`revision
      ensures 0 <= revision < RevisionModulus
      ensures signals == old(signals) + LayoutDeliveries(old(revision), parent, layoutSubscribers)
      ensures revision == Advance(old(revision), layoutSubscribers)
    {
      var i := 0;
      while i < layoutSubscribers
        invariant 0 <= i <= layoutSubscribers
        invariant signals == old(signals) + LayoutDeliveries(old(revision), parent, i)
        invariant revision == Advance(old(revision), i)
      {
        signals := signals + [LayoutUpdated(revision, parent)];
        ModSucc(old(revision) + i);
        revision := (revision + 1) % RevisionModulus;
        i := i + 1;
        assert LayoutDeliveries(old(revision), parent, i) == LayoutDeliveries(old(revision), parent, i - 1)
          + [LayoutUpdated(Advance(old(revision), i - 1), parent)];
      }
    }

    /** A client subscribes to ItemsPropertiesUpdated. */
    method SubscribeItemsPropertiesUpdated()
      modifies this`propertySubscribers
      ensures propertySubscribers == old(propertySubscribers) + 1
    {
      propertySubscribers := propertySubscribers + 1;
    }

    /** A client subscribes to LayoutUpdated. */
    method SubscribeLayoutUpdated()
      modifies this`layoutSubscribers
      ensures layoutSubscribers == old(layoutSubscribers) + 1
    {
      layoutSubscribers := layoutSubscribers + 1;
    }

    /** GetLayout: the current revision and the layout below `parentId`; an
        id outside the registry throws. */
    function GetLayout(host: Host, parentId: int, recursionDepth: int, propertyNames: seq<string>): (r: Result<LayoutReply>)
      requires WellFormed(host)
      reads this
      ensures r.Err? <==> !(0 <= parentId < |items|)
      ensures r.Err? ==> r.error == ArgumentOutOfRange
      ensures r.Ok? ==> r.value.revision == revision
      ensures r.Ok? ==> r.value.layout == LayoutOf(host, items, items[parentId], 0, recursionDepth, Requested(propertyNames))
    {
      if 0 <= parentId < |items| then
        Ok(LayoutReply(revision, LayoutOf(host, items, items[parentId], 0, recursionDepth, Requested(propertyNames))))
      else Err(ArgumentOutOfRange)
    }

    /** GetGroupProperties: one entry per id, in request order, echoing the
        id; any id outside the registry makes the whole call throw. */
    method GetGroupProperties(host: Host, ids: seq<int>, propertyNames: seq<string>) returns (r: Result<seq<ItemProperties>>)
      ensures r.Ok? <==> forall i :: 0 <= i < |ids| ==> 0 <= ids[i] < |items|
      ensures r.Err? ==> r.error == ArgumentOutOfRange
      ensures r.Ok? ==> |r.value| == |ids| && forall i :: 0 <= i < |ids| ==>
        0 <= ids[i] < |items| && r.value[i] == ItemProperties(ids[i], ItemProps(host, items[ids[i]], Requested(propertyNames)))
    {
      var names := Requested(propertyNames);
      var reg := items;
      var itemList: seq<ItemProperties> := [];
      var i := 0;
      while i < |ids|
        invariant 0 <= i <= |ids|
        invariant forall j :: 0 <= j < i ==> 0 <= ids[j] < |reg|
        invariant |itemList| == i
        invariant forall j :: 0 <= j < i ==> itemList[j] == ItemProperties(ids[j], ItemProps(host, reg[ids[j]], names))
      {
        var id := ids[i];
        if !(0 <= id < |reg|) {
          return Err(ArgumentOutOfRange);
        }
        itemList := itemList + [ItemProperties(id, ItemProps(host, reg[id], names))];
        i := i + 1;
      }
      r := Ok(itemList);
    }

    /** GetProperty: the value of one property of the item in slot `id`. */
    function GetProperty(host: Host, id: int, name: string): (r: Result<Value>)
      reads this
      ensures !(0 <= id < |items|) ==> r == Err(ArgumentOutOfRange)
      ensures 0 <= id < |items| && items[id].None? ==> r == Err(ArgumentNull)
      ensures 0 <= id < |items| && items[id].Some? ==>
        (r.Ok? <==> PropOfDisplayName(name).Some?)
        && (r.Ok? ==> r.value == ItemValue(host.node(items[id].value), PropOfDisplayName(name).value))
    {
      if 0 <= id < |items| then GetItemProperty(NodeOf(host, items[id]), Some(name)) else Err(ArgumentOutOfRange)
    }

    /** Event: a completed click on a live item is logged; see EventOutcome. */
    method Event(id: int, eventId: string, perform: Handle -> Outcome) returns (r: Outcome)
      modifies this`clicked
      ensures EventOutcome(items, id, eventId, perform).Err? ==> r == Fail(EventOutcome(items, id, eventId, perform).error)
      ensures EventOutcome(items, id, eventId, perform).Ok? ==> r == Pass
      ensures clicked == old(clicked) + ClickOf(EventOutcome(items, id, eventId, perform))
    {
      if !(0 <= id < |items|) {
        return Fail(ArgumentOutOfRange);
      }
      var item := items[id];
      if eventId == "clicked" {
        if item.None? {
          return Fail(NullReference);
        }
        var performed := perform(item.value);
        if performed.Fail? {
          return performed;
        }
        clicked := clicked + [item.value];
      }
      r := Pass;
    }

    /** EventGroup: every event is attempted; the ids of those that throw are
        returned in order. */
    method EventGroup(events: seq<MenuEvent>, perform: Handle -> Outcome) returns (errors: seq<int>)
      modifies this`clicked
      ensures var reg := items; errors == FailedIds(events, Failures(reg, perform))
      ensures var reg := items; clicked == old(clicked) + Clicks(events, Outcomes(reg, perform))
    {
      ghost var reg := items;
      ghost var outcome := Outcomes(reg, perform);
      ghost var fails := Failures(reg, perform);
      errors := [];
      var i := 0;
      while i < |events|
        invariant 0 <= i <= |events|
        invariant errors == FailedIds(events[..i], fails)
        invariant clicked == old(clicked) + Clicks(events[..i], outcome)
      {
        var e := events[i];
        var res := Event(e.id, e.eventId, perform);
        assert outcome(e) == EventOutcome(reg, e.id, e.eventId, perform);
        assert fails(e) == res.Fail?;
        FailedIdsStep(events[..i], e, fails);
        ClicksStep(events[..i], e, outcome);
        PrefixStep(events, i);
        if res.Fail? {
          errors := errors + [e.id];
        }
        i := i + 1;
      }
      assert events[..i] == events;
    }

    /** AboutToShow of the item in slot `id`. */
    function AboutToShow(id: int): (r: Result<bool>)
      reads this
      ensures r.Ok? ==> r.value
      ensures r.Ok? <==> 0 <= id < |items| && items[id].Some?
    {
      AboutToShowAt(items, id)
    }

    /** AboutToShowGroup: every live id needs an update, every other id is an
        error; together the two lists are the request, each in order. */
    method AboutToShowGroup(ids: seq<int>) returns (updatesNeeded: seq<int>, idErrors: seq<int>)
      ensures var reg := items; updatesNeeded == Filter(ids, id => AboutToShowAt(reg, id) == Ok(true))
      ensures var reg := items; idErrors == Filter(ids, id => AboutToShowAt(reg, id).Err?)
      ensures multiset(updatesNeeded) + multiset(idErrors) == multiset(ids)
    {
      var reg := items;
      var shows := id => AboutToShowAt(reg, id) == Ok(true);
      var fails := id => AboutToShowAt(reg, id).Err?;
      updatesNeeded, idErrors := [], [];
      var i := 0;
      while i < |ids|
        invariant 0 <= i <= |ids|
        invariant updatesNeeded == Filter(ids[..i], shows)
        invariant idErrors == Filter(ids[..i], fails)
      {
        assert ids[..i + 1][..i] == ids[..i];
        var show := AboutToShow(ids[i]);
        if show.Err? {
          idErrors := idErrors + [ids[i]];
        } else if show.value {
          updatesNeeded := updatesNeeded + [ids[i]];
        }
        i := i + 1;
      }
      assert ids[..i] == ids;
      FilterPartition(ids, shows, fails);
    }
  }

  /** The signals of OnItemPropertyUpdated for item `item` and property `p`:
      the one-property update to each property subscriber, then a
      LayoutUpdated naming the item to each layout subscriber. */
  function PropertyUpdateSignals(host: Host, reg: seq<Option<Handle>>, revision: int,
                                 propertySubscribers: nat, layoutSubscribers: nat, item: Handle, p: Prop): seq<Signal>
  {
    var id := IndexOf(reg, Some(item));
    PropertyDeliveries([ItemProperties(id, map[DisplayName(p) := ItemValue(host.node(item), p)])], propertySubscribers)
      + LayoutDeliveries(revision, id, layoutSubscribers)
  }
}
