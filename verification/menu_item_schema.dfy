/** The property schema of a dbusmenu item: twelve properties, each with the
    display name used on the bus, the name of the C# property that computes it,
    and the value declared as its default. */
module MenuItemSchema {
  import opened Wrappers

  datatype Prop =
    | Type | Label | Enabled | Visible | IconName | IconData | Shortcut
    | ToggleType | ToggleState | ChildrenDisplay | Disposition | AccessibleDesc

  /** A property value as it travels in a D-Bus variant. */
  datatype Value =
    | Str(s: string)
    | Bool(b: bool)
    | Int(i: int)
    | Bytes(bytes: seq<bv8>)              // byte[]
    | Strings(strs: seq<string>)          // string[]
    | StringRows(rows: seq<seq<string>>)  // string[][]

  /** The properties in declaration order. */
  const AllProps: seq<Prop> := [Type, Label, Enabled, Visible, IconName, IconData, Shortcut,
                                ToggleType, ToggleState, ChildrenDisplay, Disposition, AccessibleDesc]

  /** The name the property has on the bus. */
  function DisplayName(p: Prop): string {
    match p
    case Type => "type"
    case Label => "label"
    case Enabled => "enabled"
    case Visible => "visible"
    case IconName => "icon-name"
    case IconData => "icon-data"
    case Shortcut => "shortcut"
    case ToggleType => "toggle-type"
    case ToggleState => "toggle-state"
    case ChildrenDisplay => "children-display"
    case Disposition => "disposition"
    case AccessibleDesc => "accessible-desc"
  }

  /** The name of the C# property that computes it. */
  function ClrName(p: Prop): string {
    match p
    case Type => "Type"
    case Label => "Label"
    case Enabled => "Enabled"
    case Visible => "Visible"
    case IconName => "IconName"
    case IconData => "IconData"
    case Shortcut => "Shortcut"
    case ToggleType => "ToggleType"
    case ToggleState => "ToggleState"
    case ChildrenDisplay => "ChildrenDisplay"
    case Disposition => "Disposition"
    case AccessibleDesc => "AccessibleDesc"
  }

  /** The value of the property's default-value attribute.  The attribute can
      only carry a one-dimensional array, so `shortcut` declares an empty
      string[], not a string[][]. */
  function DefaultValue(p: Prop): Value {
    match p
    case Type => Str("standard")
    case Label => Str("")
    case Enabled => Bool(true)
    case Visible => Bool(true)
    case IconName => Str("")
    case IconData => Bytes([])
    case Shortcut => Strings([])
    case ToggleType => Str("")
    case ToggleState => Int(-1)
    case ChildrenDisplay => Str("")
    case Disposition => Str("normal")
    case AccessibleDesc => Str("")
  }

  /** The property with this display name, if any. */
  function PropOfDisplayName(name: string): (r: Option<Prop>)
    ensures r.Some? ==> DisplayName(r.value) == name
  {
    if name == "type" then Some(Type)
    else if name == "label" then Some(Label)
    else if name == "enabled" then Some(Enabled)
    else if name == "visible" then Some(Visible)
    else if name == "icon-name" then Some(IconName)
    else if name == "icon-data" then Some(IconData)
    else if name == "shortcut" then Some(Shortcut)
    else if name == "toggle-type" then Some(ToggleType)
    else if name == "toggle-state" then Some(ToggleState)
    else if name == "children-display" then Some(ChildrenDisplay)
    else if name == "disposition" then Some(Disposition)
    else if name == "accessible-desc" then Some(AccessibleDesc)
    else None
  }

  /** The property whose C# property has this name, if any. */
  function PropOfClrName(name: string): (r: Option<Prop>)
    ensures r.Some? ==> ClrName(r.value) == name
  {
    if name == "Type" then Some(Type)
    else if name == "Label" then Some(Label)
    else if name == "Enabled" then Some(Enabled)
    else if name == "Visible" then Some(Visible)
    else if name == "IconName" then Some(IconName)
    else if name == "IconData" then Some(IconData)
    else if name == "Shortcut" then Some(Shortcut)
    else if name == "ToggleType" then Some(ToggleType)
    else if name == "ToggleState" then Some(ToggleState)
    else if name == "ChildrenDisplay" then Some(ChildrenDisplay)
    else if name == "Disposition" then Some(Disposition)
    else if name == "AccessibleDesc" then Some(AccessibleDesc)
    else None
  }

  /** Display-name lookup is exact: it finds a property iff the name is that
      property's display name. */
  lemma DisplayNameLookup(name: string, p: Prop)
    ensures PropOfDisplayName(name) == Some(p) <==> DisplayName(p) == name
  {
  }

  /** C# name lookup is exact likewise. */
  lemma ClrNameLookup(name: string, p: Prop)
    ensures PropOfClrName(name) == Some(p) <==> ClrName(p) == name
  {
  }

  /** The schema lists every property. */
  lemma AllPropsCover(p: Prop)
    ensures p in AllProps
  {
    match p
    case Type => assert AllProps[0] == Type;
    case Label => assert AllProps[1] == Label;
    case Enabled => assert AllProps[2] == Enabled;
    case Visible => assert AllProps[3] == Visible;
    case IconName => assert AllProps[4] == IconName;
    case IconData => assert AllProps[5] == IconData;
    case Shortcut => assert AllProps[6] == Shortcut;
    case ToggleType => assert AllProps[7] == ToggleType;
    case ToggleState => assert AllProps[8] == ToggleState;
    case ChildrenDisplay => assert AllProps[9] == ChildrenDisplay;
    case Disposition => assert AllProps[10] == Disposition;
    case AccessibleDesc => assert AllProps[11] == AccessibleDesc;
  }

  /** Twelve properties, none listed twice. */
  lemma AllPropsDistinct()
    ensures |AllProps| == 12
    ensures forall i, j :: 0 <= i < j < |AllProps| ==> AllProps[i] != AllProps[j]
  {
  }

  /** No two properties share a display name or a C# name. */
  lemma NamesInjective(p: Prop, q: Prop)
    ensures DisplayName(p) == DisplayName(q) ==> p == q
    ensures ClrName(p) == ClrName(q) ==> p == q
  {
  }

  /** No display name is also a C# property name: display names start with a
      lower-case letter, C# names with an upper-case one. */
  lemma DisplayNameIsNotClrName(p: Prop, q: Prop)
    ensures DisplayName(p) != ClrName(q)
  {
    assert DisplayName(p)[0] != ClrName(q)[0];
  }
}
