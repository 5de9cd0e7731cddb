# Keebuntu DBusMenu server, modelled in Dafny

Keebuntu publishes the menus of KeePass (WinForms `MenuStrip` and
`ContextMenuStrip` trees) on the session bus through the
`com.canonical.dbusmenu` interface. Desktop shells use this interface to draw
the application menu and the indicator menu. The server does four things:

- It numbers the menu items. The protocol id of an item is its index in a
  list, `mMenuItemList`. Slot 0 holds a synthetic root. An item is appended
  only if it is absent. A removed item's slot is set to null, so no other id
  moves.
- It answers layout and property requests:
  - `GetLayout` builds a recursive tree, cut at a recursion depth;
  - `GetGroupProperties` and `GetProperty` read items.

  Property maps are sparse: a property whose value equals its declared
  default is left out.
- It forwards events (`Event`, `EventGroup`) and `AboutToShow` requests to
  the items. Batch calls report failing entries and still process the rest.
- It turns changes of the host items into `ItemsPropertiesUpdated` and
  `LayoutUpdated` signals. `LayoutUpdated` hands out a `uint` revision and
  increments it once per subscriber.

There are two revisions of the server:

- `WinformsDBusMenu` keeps the WinForms items in its list and computes
  every property itself.
- `MenuStripDBusMenu` keeps item proxies in its list and delegates property
  values, children, events and default tests to them. The proxies are
  `ToolStripItemProxy` with its shared proxy cache, the root proxies
  `MenuStripProxy` and `ContextMenuStripProxy`, and the base class
  `DefaultMenuItemProxy`.

The model has ten modules, one file each:

| file | models |
|---|---|
| `wrappers.dfy` | Option, Result and the .NET exceptions the code throws |
| `host_menu.dfy` | the WinForms item tree as read by the server: item kinds and states, drop-down items, depth-first pre-order |
| `menu_item_schema.dfy` | the twelve-property schema of `IMenuItemProxy`: display names, C# names, default attributes |
| `default_menu_item_proxy.dfy` | the base proxy of the DBus revision: its caches, `GetDefaultValue`, `IsDefaultValue`, `GetValue` name resolution, `GetAllDisplayNames` |
| `legacy_default_menu_item_proxy.dfy` | the older base proxy under `Keebuntu/`: caches built with `Dictionary.Add`, no `shortcut` special case |
| `tool_strip_item_proxy.dfy` | the property getters of `ToolStripItemProxy`, which `WinformsDBusMenu.GetItemProperty` computes identically |
| `menu_item_proxies.dfy` | proxy objects, root proxies, `GetValue`, `OnEvent`, `OnAboutToShow`, and the proxy cache with `GetProxyFromCache` and `GetChildren` |
| `dbus_menu_protocol.dfy` | wire types, and the list logic both servers share: `IndexOf`, add-if-absent, tombstoning, partial-failure lists, signal deliveries, the 32-bit revision |
| `winforms_dbus_menu.dfy` | `WinformsDBusMenu` |
| `menu_strip_dbus_menu.dfy` | `MenuStripDBusMenu` |

Modelling choices:

- **Host state.** The host is a value, `Host`. It gives the state of every
  item reference (`Handle`) and the items of every strip. The tree is
  acyclic: a rank function strictly decreases from an item to its drop-down
  items. Recursion over the tree terminates on that rank.
- **Server state.** Each server is a `class`:
  - `items` is the registry;
  - `revision` is the layout revision, kept in `[0, 2^32)`;
  - there are two subscriber counts;
  - `signals` is the log of deliveries, one per subscriber;
  - `clicked` is the log of the clicks that completed.

  The methods change these fields as the C# code does, and their contracts
  give the new state.
- **Proxies.** A proxy is an object that is compared by reference, with a
  `target`: the item or strip it wraps, which also fixes its class. The
  proxy cache is a class whose `proxies` map the methods grow. Ids in the
  second server are computed on proxies. The contracts state them on
  targets, which is equivalent under the registry invariant (`IndexOfProxy`).
- **Event handlers.** Each lambda that `AddItemsToMenuItemList` attaches is a
  method of the server: `OnItemAdded`, `OnItemRemoved` and `OnItemChanged`.
- **Specifications.** The layout and property-map builders are specified by
  recursive functions (`LayoutOf`, `ItemProps`, `TargetProps`). The lemmas
  then relate those functions to the host tree.

Where the code and its description differ, the model follows the code:

- The first server's `IsDefaultValue` on `shortcut` reads row 0 of the
  value. An empty `string[][]` therefore throws `IndexOutOfRange`; it does
  not count as default (Keebuntu/WinformsDBusMenu.cs:289-290).
- The DBus `GetDefaultValue("shortcut")` returns an empty `string[][]`.
  Even so, a one-row value with an empty row is default only through the
  array rule, which `IsDefaultValue` applies before any lookup.
- `Keebuntu/MenuStripProxy.cs` derives from the `Keebuntu` base proxy,
  which has no `GetValue`, `GetChildren` or `OnAboutToShow`. The model
  gives the root proxy the DBus base proxy's members, which is the class
  the second server calls.
- `GetLayout` replies with the current revision, and each `LayoutUpdated`
  delivery hands out the revision and then increments it. The revision a
  client reads after a change is therefore one past the last one signalled,
  and each subscriber receives a different revision for the same change.
  These are not the most recently emitted value and one increment per change
  (Keebuntu/WinformsDBusMenu.cs:316 and 541, DBus/MenuStripDBusMenu.cs:169
  and 384). `LayoutDeliveriesSpec` states the hand-out, and
  `LeftRevisionNotDelivered` shows that the revision left behind is none of
  those delivered.
- Building a layout registers nothing: it only looks ids up with `IndexOf`
  (Keebuntu/WinformsDBusMenu.cs:331, DBus/MenuStripDBusMenu.cs:180). An item
  that arrived through `ItemAdded` is registered, but its own drop-down items
  are not. Unless they were registered earlier, they get id -1 in every
  layout, and `LayoutOf` gives exactly that.

## Model

| member | source | states |
|---|---|---|
| MenuItemSchema.DisplayNameLookup | DBus/IMenuItemProxy.cs:8-54 | a name finds a property iff it is that property's display name |
| MenuItemSchema.ClrNameLookup | DBus/IMenuItemProxy.cs:8-54 | a name finds a property iff it is that property's C# name |
| MenuItemSchema.AllPropsCover | DBus/IMenuItemProxy.cs:8-54 | the schema list holds every property |
| MenuItemSchema.AllPropsDistinct | DBus/IMenuItemProxy.cs:8-54 | the schema has exactly twelve properties, none listed twice |
| MenuItemSchema.NamesInjective | DBus/IMenuItemProxy.cs:8-54 | no two properties share a display name or a C# name |
| MenuItemSchema.DisplayNameIsNotClrName | DBus/IMenuItemProxy.cs:8-54 | no display name is also a C# name, so the two lookups of `GetValue` never clash |
| MenuItemSchema.PropOfDisplayName | DBus/IMenuItemProxy.cs:8-54 | a property the lookup finds has the name as its display name |
| MenuItemSchema.PropOfClrName | DBus/IMenuItemProxy.cs:8-54 | a property the lookup finds has the name as its C# name |
| DefaultMenuItemProxy.DisplayNameCacheContents | DBus/DefaultMenuItemProxy.cs:103-115 | the display-name cache has exactly the twelve display names as keys, each mapped to its property's C# name |
| DefaultMenuItemProxy.DefaultValueCacheContents | DBus/DefaultMenuItemProxy.cs:103-115 | the default-value cache has exactly the twelve C# names as keys, each mapped to the property's default attribute |
| DefaultMenuItemProxy.UpdateCaches | DBus/DefaultMenuItemProxy.cs:103-115 | the loop stores each property's two attributes into the caches, in schema order (indexer assignment, so repeats overwrite) |
| DefaultMenuItemProxy.StaticConstructor | DBus/DefaultMenuItemProxy.cs:96-101 | starting from empty caches, `UpdateCaches` leaves exactly the caches the lookups read |
| DefaultMenuItemProxy.ShortcutNames | DBus/DefaultMenuItemProxy.cs:128-131 | among the schema names, only the two names of `shortcut` equal "shortcut" ignoring case |
| DefaultMenuItemProxy.GetDefaultValueOfDisplayName | DBus/DefaultMenuItemProxy.cs:122-148 | a display name yields its property's default: the cache through the C# name, or the empty `string[][]` for `shortcut` |
| DefaultMenuItemProxy.GetDefaultValueOfClrName | DBus/DefaultMenuItemProxy.cs:122-148 | a C# name yields its property's default |
| DefaultMenuItemProxy.GetDefaultValueKnownNames | DBus/DefaultMenuItemProxy.cs:122-148 | `GetDefaultValue` succeeds iff the name is "shortcut" in some letter case or a schema name; every other name throws |
| DefaultMenuItemProxy.ArrayDefault | DBus/DefaultMenuItemProxy.cs:159-168 | the array rule applies exactly to array values (`byte[]`, `string[]`, `string[][]`) |
| DefaultMenuItemProxy.IsDefaultValueSpec | DBus/DefaultMenuItemProxy.cs:150-170 | under either name of a property, a non-array value is default iff it equals the declared default; a byte array iff it is empty; a `string[][]` iff it is empty or one empty row |
| DefaultMenuItemProxy.SchemaDefaultIsDefault | DBus/DefaultMenuItemProxy.cs:14-60 | every value a base getter returns is judged default under both names |
| DefaultMenuItemProxy.ResolvePropertySpec | DBus/DefaultMenuItemProxy.cs:62-77 | `GetValue` resolves a name to a property iff the name is its C# name or its display name |
| DefaultMenuItemProxy.AllDisplayNamesAreTheKeys | DBus/DefaultMenuItemProxy.cs:172-177 | the names returned are exactly the keys of the display-name cache, with no repeats |
| LegacyDefaultMenuItemProxy.IndexAddSucceeds | Keebuntu/DefaultMenuItemProxy.cs:36-52 | a run of `Dictionary.Add` over new, pairwise distinct keys never throws, and it builds the same map as plain stores |
| LegacyDefaultMenuItemProxy.IndexMissing | Keebuntu/DefaultMenuItemProxy.cs:36-52 | a key that is neither present nor added is absent afterwards |
| LegacyDefaultMenuItemProxy.AllAddsSucceed | Keebuntu/DefaultMenuItemProxy.cs:36-52 | adding the attributes of all twelve properties meets no repeated key, and gives the same two caches as the DBus revision |
| LegacyDefaultMenuItemProxy.StaticConstructor | Keebuntu/DefaultMenuItemProxy.cs:36-52 | the loop's caches equal the result of the `Add` sequence, which does not throw, and equal the DBus revision's caches |
| LegacyDefaultMenuItemProxy.GetDefaultValueSpec | Keebuntu/DefaultMenuItemProxy.cs:59-78 | both names of a property yield its default attribute; the lookup succeeds iff the name is a schema name, with no `shortcut` special case |
| LegacyDefaultMenuItemProxy.SameAsDBusRevision | Keebuntu/DefaultMenuItemProxy.cs:80-100 | for a schema name, this revision's `IsDefaultValue` (null checks, array rule, default comparison) agrees with the DBus revision's on every value |
| LegacyDefaultMenuItemProxy.AllDisplayNamesAreTheKeys | Keebuntu/DefaultMenuItemProxy.cs:102-107 | the names returned are the keys of the display-name cache built by `Add` |
| LegacyDefaultMenuItemProxy.Getter | Keebuntu/DefaultMenuItemProxy.cs:12-34 | every getter returns its property's default attribute, except `Shortcut`, whose `string[]` attribute fails the cast to `string[][]` |
| ToolStripItemProxy.ReplaceAmpersands | DBus/ToolStripItemProxy.cs:34-38 | the label has the text's length; each `&` becomes `_` and every other character is kept; no `&` remains |
| ToolStripItemProxy.ShortcutRowSpec | DBus/ToolStripItemProxy.cs:70-94 | the row holds Alt, Control and Shift iff they are set on a menu item, and the key name iff a key is set; its entries come in the order Alt, Control, Shift, key; a non-menu item gives an empty row |
| ToolStripItemProxy.ShortcutRowMembers | DBus/ToolStripItemProxy.cs:70-94 | which names the shortcut row holds, as in `ShortcutRowSpec` |
| ToolStripItemProxy.ShortcutRowOrdered | DBus/ToolStripItemProxy.cs:70-94 | the row's entries are strictly ordered Alt, Control, Shift, key |
| ToolStripItemProxy.ItemValueHasDeclaredType | DBus/ToolStripItemProxy.cs:24-149 | each getter returns a value of the type declared for its property |
| ToolStripItemProxy.ItemValueDefaultState | DBus/ToolStripItemProxy.cs:24-149 | each getter's value meets the array rule or equals its default exactly in the item's default state. These states are: not a separator; empty or null text; enabled; available; no image; no shortcut keys; no check-on-click; not a menu item; no drop-down items; empty description |
| ToolStripItemProxy.ItemValueIsDefault | DBus/ToolStripItemProxy.cs:24-149 | under either name, `DefaultMenuItemProxy.IsDefaultValue` judges a getter's value default iff the item is in that property's default state |
| MenuItemProxies.BaseGettersReturnTheDefault | DBus/DefaultMenuItemProxy.cs:14-60 | a base getter's lookup never throws, and its value is judged default |
| MenuItemProxies.GetValueSpec | DBus/DefaultMenuItemProxy.cs:62-77 | both names of a property reach its getter on any proxy; `GetValue` fails iff the name resolves to nothing, and then throws `ArgumentException` |
| MenuItemProxies.PropertyValueIsDefault | DBus/ContextMenuStripProxy.cs:7-30 | on every proxy class, a value is judged default iff the proxy is in that property's default state; a root proxy differs from the defaults only in `children-display` of a non-empty strip |
| MenuItemProxies.CastPrefix | Keebuntu/MenuStripProxy.cs:25 | the strip's items up to the returned index are menu items, and the item at that index (if any) is not |
| MenuItemProxies.ChildItems | Keebuntu/MenuStripProxy.cs:22-30 | a proxy's children fail iff it is a menu-strip root holding an item that is not a menu item, and then with `InvalidCast` |
| MenuItemProxies.Visited | DBus/ToolStripItemProxy.cs:151-164 | when the children can be listed, the items walked are exactly those children |
| MenuItemProxies.ProxyCache.GetProxyFromCache | DBus/ToolStripItemProxy.cs:166-175 | the returned proxy is the cache entry for the item and wraps it; a cached item gets the same proxy with the cache unchanged; otherwise a fresh proxy is added |
| MenuItemProxies.ProxyCache.GetChildren | DBus/ToolStripItemProxy.cs:151-164 | the result succeeds iff the child items can be listed; each result entry is the cached proxy of the corresponding child, in host order; the cache only grows, by the items walked |
| MenuItemProxies.ProxyCache.CacheItems | DBus/ContextMenuStripProxy.cs:22-30 | the loop returns the cached proxy of each item in order. With a cast per item, it throws `InvalidCast` at the first item that is not a menu item, after caching those before it |
| DBusMenuProtocol.IndexOf | DBus/MenuStripDBusMenu.cs:122-128 | `List.IndexOf`: -1 iff absent, else the first index holding the element |
| DBusMenuProtocol.IndexOfRegistered | Keebuntu/WinformsDBusMenu.cs:322-327 | in a registry without duplicates, a registered item's id is its slot |
| DBusMenuProtocol.TombstonedHasNoId | Keebuntu/WinformsDBusMenu.cs:140-149 | nulling a slot keeps the registry free of duplicates, and the removed item then has id -1 |
| DBusMenuProtocol.AddAllSpec | Keebuntu/WinformsDBusMenu.cs:121-130 | add-if-absent registration only appends, so old ids never change. Every new slot holds a registered item. Afterwards every item is registered, and the registry stays free of duplicates |
| DBusMenuProtocol.AddAllAppend | Keebuntu/WinformsDBusMenu.cs:121-130 | registering two lists in turn is registering their concatenation |
| DBusMenuProtocol.LevelsBelow | Keebuntu/WinformsDBusMenu.cs:345-355 | where children are requested, the next level has one level fewer left, and this level had at least one |
| DBusMenuProtocol.FilterSpec | Keebuntu/WinformsDBusMenu.cs:450-468 | a filtered list keeps exactly the kept elements, and is no longer than the input |
| DBusMenuProtocol.FilterAppend | Keebuntu/WinformsDBusMenu.cs:450-468 | batches are filtered entry by entry: the filter of a concatenation is the concatenation of the filters |
| DBusMenuProtocol.FilterPartition | Keebuntu/WinformsDBusMenu.cs:450-468 | two complementary filters split a batch into two lists that together hold each entry as often as the batch does |
| DBusMenuProtocol.FailedIdsSpec | Keebuntu/WinformsDBusMenu.cs:422-436 | an id is reported iff an entry with that id failed, and reports keep batch order |
| DBusMenuProtocol.FailedIds | Keebuntu/WinformsDBusMenu.cs:422-436 | the error list is never longer than the batch |
| DBusMenuProtocol.PropertyDeliveries | Keebuntu/WinformsDBusMenu.cs:486-529 | one `ItemsPropertiesUpdated` delivery with the same update per subscriber |
| DBusMenuProtocol.LayoutDeliveries | Keebuntu/WinformsDBusMenu.cs:533-547 | one LayoutUpdated delivery per subscriber |
| DBusMenuProtocol.LayoutDeliveriesSpec | Keebuntu/WinformsDBusMenu.cs:533-547 | every delivery names the same parent. The first delivery carries the current revision, and each later one the previous revision plus one modulo 2^32. The revision left behind is one past the last handed out |
| DBusMenuProtocol.LayoutDeliveriesIncrease | Keebuntu/WinformsDBusMenu.cs:533-547 | without wrap-around, the revisions handed out strictly increase |
| DBusMenuProtocol.LeftRevisionNotDelivered | Keebuntu/WinformsDBusMenu.cs:533-547 | with fewer than 2^32 subscribers, the revision left behind for `GetLayout` is none of the revisions just delivered |
| DBusMenuProtocol.ClicksSpec | Keebuntu/WinformsDBusMenu.cs:422-436 | an item is clicked by a batch iff some event of the batch clicks it |
| WinformsDBusMenu.SupportedAreTheDisplayNames | Keebuntu/WinformsDBusMenu.cs:15-29 | the supported names are the twelve display names in schema order, and a name is supported iff it is a display name |
| WinformsDBusMenu.GetItemPropertySpec | Keebuntu/WinformsDBusMenu.cs:177-265 | a live item has a value exactly for the display names, and that value is the getter's value; other names throw |
| WinformsDBusMenu.IsDefaultValueSpec | Keebuntu/WinformsDBusMenu.cs:267-303 | an unknown name throws. Every property other than `shortcut` accepts exactly its default. `shortcut` accepts exactly a `string[][]` whose first row is empty |
| WinformsDBusMenu.ItemValueIsDefault | Keebuntu/WinformsDBusMenu.cs:267-303 | on a live item's own values, `IsDefaultValue` decides exactly the item's default state |
| WinformsDBusMenu.ItemPropsSpec | Keebuntu/WinformsDBusMenu.cs:333-343 | the sparse map of a live item holds exactly the requested display names whose property is not in its default state, with the item's values. Failing names are skipped, and an empty slot's map is empty |
| WinformsDBusMenu.LayoutMirrorsHost | Keebuntu/WinformsDBusMenu.cs:322-357 | the depth rule. A layout carries the registry id and the sparse map of its item. A negative recursion depth yields the whole subtree, a depth n exactly n levels, and 0 no children. Children come in drop-down order |
| WinformsDBusMenu.LayoutOfSlot | Keebuntu/WinformsDBusMenu.cs:322-327 | a live slot's layout carries the slot as id. A null slot's layout carries the first null slot's index, with no properties and no children |
| WinformsDBusMenu.ClickedItems | Keebuntu/WinformsDBusMenu.cs:401-436 | a batch clicks exactly the live items named by its "clicked" entries whose click completes |
| WinformsDBusMenu.FailedEvents | Keebuntu/WinformsDBusMenu.cs:401-436 | `EventGroup` reports an id iff an event with that id names no slot, clicks a null slot, or clicks an item whose click throws |
| WinformsDBusMenu.Server.constructor | Keebuntu/WinformsDBusMenu.cs:99-119 | the synthetic root is at index 0, then every item `menu.Items` yields after the `AddRange`, in depth-first pre-order, each once; the registry has no duplicates |
| WinformsDBusMenu.Server.AddItemsToMenuItemList | Keebuntu/WinformsDBusMenu.cs:121-130 | the registry becomes add-if-absent of the walk's pre-order, and nothing else changes |
| WinformsDBusMenu.Server.OnItemAdded | Keebuntu/WinformsDBusMenu.cs:131-139 | the item is appended if absent; when it is its owner's only item, its `children-display` update and a LayoutUpdated are sent, otherwise nothing is sent |
| WinformsDBusMenu.Server.OnItemRemoved | Keebuntu/WinformsDBusMenu.cs:140-149 | the item's slot is nulled, keeping the length and every other slot. An unregistered item throws. When its owner has no items left, the signals carry id -1, because the slot was nulled before `IndexOf`, and the revision advances once per layout subscriber; otherwise no signal is sent and the revision is unchanged |
| WinformsDBusMenu.Server.OnItemChanged | Keebuntu/WinformsDBusMenu.cs:150-161 | a text, enabled, available or check-state change announces `label`, `enabled`, `visible` or `toggle-state` |
| WinformsDBusMenu.Server.OnItemPropertyUpdated | Keebuntu/WinformsDBusMenu.cs:476-484 | a one-item, one-property update to every property subscriber, then a LayoutUpdated for the item's id; the revision advances once per layout subscriber |
| WinformsDBusMenu.Server.AnnounceUpdate | Keebuntu/WinformsDBusMenu.cs:482-483 | the update's deliveries come first, then the LayoutUpdated deliveries |
| WinformsDBusMenu.Server.OnItemsPropertiesUpdated | Keebuntu/WinformsDBusMenu.cs:486-529 | one delivery of the update per subscriber |
| WinformsDBusMenu.Server.OnLayoutUpdated | Keebuntu/WinformsDBusMenu.cs:533-547 | each subscriber gets the current revision, which is then incremented modulo 2^32 |
| WinformsDBusMenu.Server.SubscribeItemsPropertiesUpdated | Keebuntu/WinformsDBusMenu.cs:470 | a client adds itself to the `ItemsPropertiesUpdated` handlers |
| WinformsDBusMenu.Server.SubscribeLayoutUpdated | Keebuntu/WinformsDBusMenu.cs:531 | a client adds itself to the `LayoutUpdated` handlers |
| WinformsDBusMenu.Server.GetLayout | Keebuntu/WinformsDBusMenu.cs:305-320 | an id outside the registry throws. Otherwise the reply is the current revision and the layout of that slot, with an empty name list standing for all twelve names |
| WinformsDBusMenu.Server.GetGroupProperties | Keebuntu/WinformsDBusMenu.cs:359-390 | one entry per id, in request order, echoing the id, with that slot's sparse map; any id outside the registry throws |
| WinformsDBusMenu.Server.GetProperty | Keebuntu/WinformsDBusMenu.cs:392-399 | a bad id throws and a null slot throws; a live item's value is found exactly for the display names |
| WinformsDBusMenu.Server.Event | Keebuntu/WinformsDBusMenu.cs:401-420 | a bad id throws, and so does a click on a null slot; a click on a live item throws what the click throws, and otherwise it is logged; other events do nothing |
| WinformsDBusMenu.Server.EventGroup | Keebuntu/WinformsDBusMenu.cs:422-436 | every event is attempted; the ids of those that throw, failed clicks included, are returned in batch order; the completed clicks are logged in batch order |
| WinformsDBusMenu.Server.AboutToShow | Keebuntu/WinformsDBusMenu.cs:438-448 | true for every live slot; a null slot or a bad id throws |
| WinformsDBusMenu.Server.AboutToShowGroup | Keebuntu/WinformsDBusMenu.cs:450-468 | live ids go to the update list and the others to the error list, each in request order; the two lists together are the request |
| MenuStripDBusMenu.ItemTargetsNameTheItems | DBus/MenuStripDBusMenu.cs:104-108 | the item proxies' targets name exactly the items |
| MenuStripDBusMenu.IndexOfProxy | DBus/MenuStripDBusMenu.cs:122-128 | under the registry invariant, a known proxy's id equals its target's id, since proxies and targets sit in the same slots |
| MenuStripDBusMenu.RegistryAppend | DBus/MenuStripDBusMenu.cs:104-108 | appending the cached proxy of an unregistered item keeps the registry invariant |
| MenuStripDBusMenu.RegistryTombstone | DBus/MenuStripDBusMenu.cs:122-128 | nulling an item's slot keeps the registry invariant |
| MenuStripDBusMenu.TargetPropsSpec | DBus/MenuStripDBusMenu.cs:182-192 | a live proxy's sparse map holds exactly the requested names (display or C#) whose property is not in its default state, with the proxy's values. A null slot's map is empty |
| MenuStripDBusMenu.ItemLayoutMirrors | DBus/MenuStripDBusMenu.cs:175-202 | an item proxy's layout never throws. It carries the id and sparse map. A negative depth yields the whole subtree and a depth n exactly n levels. Children come in drop-down order |
| MenuStripDBusMenu.ChildLayoutsMirror | DBus/MenuStripDBusMenu.cs:193-200 | the walk over child proxies never throws, and gives one mirroring layout per child, in order |
| MenuStripDBusMenu.ChildLayoutsOk | DBus/MenuStripDBusMenu.cs:193-200 | when every child's layout succeeds, the walk succeeds with those layouts, in order |
| MenuStripDBusMenu.ChildLayoutsStopsAtError | DBus/MenuStripDBusMenu.cs:193-200 | the walk's first throwing child ends it with that exception |
| MenuStripDBusMenu.RootLayoutFails | Keebuntu/MenuStripProxy.cs:22-30 | when children are requested, the root's layout throws `InvalidCast` if the strip holds an item that is not a menu item |
| MenuStripDBusMenu.RootLayoutMirrorsStrip | DBus/MenuStripDBusMenu.cs:175-202 | when children are requested and every strip item is a menu item, the root's layout has the strip's items as children, each cut one level further down |
| MenuStripDBusMenu.LayoutOfSlot | DBus/MenuStripDBusMenu.cs:175-202 | a live slot's layout carries the slot as id. A null slot throws `NullReference` when children are requested. Otherwise a null slot gives the first null slot's index and no properties |
| MenuStripDBusMenu.ClickedItems | DBus/MenuStripDBusMenu.cs:246-270 | a batch clicks exactly the items whose proxies sit in the slots named by its "clicked" entries and whose click completes |
| MenuStripDBusMenu.FailedEvents | DBus/MenuStripDBusMenu.cs:246-270 | `EventGroup` reports an id iff an event with that id names no slot or a null slot, or clicks an item proxy whose click throws |
| MenuStripDBusMenu.AboutToShowAt | DBus/MenuStripDBusMenu.cs:272-279 | a slot's answer, when there is one, is false, because `OnAboutToShow` is never overridden |
| MenuStripDBusMenu.DiffSpec | DBus/MenuStripDBusMenu.cs:316-327 | the update map's keys are the display names of the listed properties, each with its current value |
| MenuStripDBusMenu.RemovedItemSignals | DBus/MenuStripDBusMenu.cs:122-132 | for an item without a slot, the `children-display` update and the LayoutUpdated carry id -1 |
| MenuStripDBusMenu.Server.constructor | DBus/MenuStripDBusMenu.cs:86-99 | the root proxy is at index 0, then the cached proxy of every item in depth-first pre-order, each once; every item walked gets a cached proxy |
| MenuStripDBusMenu.Server.AddItemsToMenuItemList | DBus/MenuStripDBusMenu.cs:101-111 | the registry's targets become add-if-absent of the walk's item proxies, and the cache grows by exactly the items walked |
| MenuStripDBusMenu.Server.AddItemTree | DBus/MenuStripDBusMenu.cs:103-111 | one item: its cached proxy is registered if absent, then the walk below it |
| MenuStripDBusMenu.Server.Register | DBus/MenuStripDBusMenu.cs:104-108 | the proxy is appended iff its target is not registered; the registry invariant is kept |
| MenuStripDBusMenu.Server.OnItemAdded | DBus/MenuStripDBusMenu.cs:112-121 | the added item's cached proxy is registered if absent; when it is its owner's only item, its `children-display` is announced |
| MenuStripDBusMenu.Server.OnItemRemoved | DBus/MenuStripDBusMenu.cs:122-132 | the proxy's slot is nulled, with no other id moving. An unregistered proxy throws. When its owner has no items left, the signals carry id -1 and the revision advances once per layout subscriber; otherwise no signal is sent and the revision is unchanged |
| MenuStripDBusMenu.Server.Unregister | DBus/MenuStripDBusMenu.cs:125-128 | the registered proxy's slot is nulled, and it then has id -1; an unregistered proxy throws `ArgumentOutOfRange` |
| MenuStripDBusMenu.Server.OnItemChanged | DBus/MenuStripDBusMenu.cs:133-152 | an enabled change of an item with an image announces `enabled` and `icon-data` together; every other change announces its one property |
| MenuStripDBusMenu.Server.OnItemPropertiesChanged | DBus/MenuStripDBusMenu.cs:316-327 | one update with the listed properties' current values, then a LayoutUpdated for the proxy's id; the revision advances once per layout subscriber |
| MenuStripDBusMenu.Server.PropertyValues | DBus/MenuStripDBusMenu.cs:322-324 | the loop builds the update map of the listed properties |
| MenuStripDBusMenu.Server.OnItemsPropertiesUpdated | DBus/MenuStripDBusMenu.cs:329-372 | one delivery of the update per subscriber |
| MenuStripDBusMenu.Server.OnLayoutUpdated | DBus/MenuStripDBusMenu.cs:376-390 | each subscriber gets the current revision, which is then incremented modulo 2^32 |
| MenuStripDBusMenu.Server.SubscribeItemsPropertiesUpdated | DBus/MenuStripDBusMenu.cs:301 | a client adds itself to the `ItemsPropertiesUpdated` handlers |
| MenuStripDBusMenu.Server.SubscribeLayoutUpdated | DBus/MenuStripDBusMenu.cs:374 | a client adds itself to the `LayoutUpdated` handlers |
| MenuStripDBusMenu.Server.GetLayout | DBus/MenuStripDBusMenu.cs:156-173 | an id outside the registry throws. Otherwise the reply is the revision stamped on that slot's layout, with an empty name list standing for all display names |
| MenuStripDBusMenu.Server.CreateMenuItemLayout | DBus/MenuStripDBusMenu.cs:175-202 | the method computes exactly the layout function, whose properties the lemmas above give |
| MenuStripDBusMenu.Server.ChildLayoutsOf | DBus/MenuStripDBusMenu.cs:193-200 | the child proxies from the cache, then their layouts, complete the layout function's children case |
| MenuStripDBusMenu.Server.CreateChildLayouts | DBus/MenuStripDBusMenu.cs:195-199 | the loop over child proxies computes the children walk, stopping at the first exception |
| MenuStripDBusMenu.Server.GetGroupProperties | DBus/MenuStripDBusMenu.cs:204-235 | one entry per id, in request order, echoing the id, with that slot's sparse map (empty for a null slot); any id outside the registry throws |
| MenuStripDBusMenu.Server.GetProperty | DBus/MenuStripDBusMenu.cs:237-244 | a bad id throws, and a null slot throws `NullReference`; otherwise the value is found exactly for the names `GetValue` resolves |
| MenuStripDBusMenu.Server.Event | DBus/MenuStripDBusMenu.cs:246-254 | a bad id or a null slot throws; otherwise the proxy's `OnEvent` decides the click, which throws what the click throws and otherwise is logged |
| MenuStripDBusMenu.Server.EventGroup | DBus/MenuStripDBusMenu.cs:256-270 | every event is attempted; the ids of those that throw, failed clicks included, are returned in batch order; the completed clicks are logged in batch order |
| MenuStripDBusMenu.Server.AboutToShow | DBus/MenuStripDBusMenu.cs:272-279 | false for every live slot; a null slot or a bad id throws |
| MenuStripDBusMenu.Server.AboutToShowGroup | DBus/MenuStripDBusMenu.cs:281-299 | no id needs an update; the error list holds exactly the ids that are bad or null, in request order |

## Left out

- WinformsDBusMenu.Server.constructor: reading the environment variable `APPMENU_DISPLAY_BOTH` and hiding the strip (`menu.Visible = false`) unless it is "1" are not modelled. They change no item state the server reads: an item's `Available` does not depend on whether its parent strip is visible.
- The `org.freedesktop.DBus.Properties` methods `Get`, `GetAll` and `Set`, and the `Version`, `TextDirection`, `Status` and `IconThemePath` properties: they reflect over attributes and hold no menu logic.
- The PNG encoding of item images: an image is modelled as its encoded bytes.
- The text of `Keys.ToString()`: a key name is an abstract string, assumed not to be a modifier name (`ShortcutRowSpec` requires this).
- Thread marshalling (`InvokeParentForm`, `InvokeWinformsThread`), `PerformClick` and the lock: the model is sequential. What a click does on the WinForms thread is a parameter `perform` of `Event` and `EventGroup`. It gives, per item, either completion or the exception that reaches the server: a null parent form or current parent, or a throwing Click handler. A completed click is an entry in the `clicked` log.
- Event wiring: each handler lambda is a method that the host calls with the owner and the item. The model does not track which items have handlers attached; every handler can be called for any item.
- `MenuStripDBusMenu.Server.OnItemChanged`: it requires the item to have a cached proxy, which every walked item has (the constructor's cache growth).
- The `AddRange` in the first server's constructor. Whether it leaves the items in `menu.Items` depends on the WinForms implementation, which is not part of this model. The constructor takes the host after the `AddRange` and the items `menu.Items` then yields. If the runtime removes them from the strip, that list is empty and only the root is registered.
- The `ArgumentNullException` for a null menu in both constructors: a menu is always present in the model.
- `ItemActivationRequested`: it is never raised and stamps a clock time.
- `Debug.Fail` in the catch blocks: a release build, where it does nothing.
- DEBUG console logging.
- Event data and timestamps of `Event` and `EventGroup`, and the `removedProps` argument of `ItemsPropertiesUpdated`: neither server uses them.
- Dictionary key order: `GetAllDisplayNames` is given in declaration order, the order in which the static constructor inserts.
- Case folding: "shortcut" is compared ignoring case for ASCII letters only.
- `MenuStripDBusMenu.Server.GetLayout`: besides the layout, it states only that cached proxies are kept. It does not state which new proxies building the layout caches.
- `MenuStripDBusMenu.Server.CreateMenuItemLayout`: states only that the cache keeps its entries, as for `GetLayout`.
- `MenuStripDBusMenu.Server.ChildLayoutsOf`: states only that the cache keeps its entries, as for `GetLayout`.
- `MenuStripDBusMenu.Server.CreateChildLayouts`: states only that the cache keeps its entries, as for `GetLayout`.
- `MenuStripDBusMenu.Server.OnItemPropertiesChanged`: requires the property list to have no repeats. A repeat would make `Dictionary.Add` throw, and every caller passes one or two distinct properties.
- The layout lemmas of `MenuStripDBusMenu` are stated over any function giving each slot's properties. `GetLayout` uses the sparse maps of the requested names (`PropsOf`).
- `Keebuntu/DefaultMenuItemProxy.cs` has no `GetValue`, `GetChildren`, `OnEvent` or `OnAboutToShow`. The root proxy `Keebuntu/MenuStripProxy.cs` is given the DBus base proxy's versions, which are the ones the second server calls.
