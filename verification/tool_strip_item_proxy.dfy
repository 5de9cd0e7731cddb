/** The property values of a ToolStripItem, as the item proxy's getters (and,
    identically, the first server revision's GetItemProperty) compute them. */
module ToolStripItemProxy {
  import opened Wrappers
  import opened HostMenu
  import opened MenuItemSchema
  import DefaultMenuItemProxy

  /** `s.Replace("&", "_")`: the mnemonic marker of WinForms becomes the one of
      dbusmenu. */
  function ReplaceAmpersands(s: string): (r: string)
    ensures |r| == |s|
    ensures forall i :: 0 <= i < |s| ==> r[i] == (if s[i] == '&' then '_' else s[i])
    ensures '&' !in r
  {
    if s == [] then []
    else [if s[0] == '&' then '_' else s[0]] + ReplaceAmpersands(s[1..])
  }

  /** The one shortcut row: the modifiers that are set, in the order Alt,
      Control, Shift, then the name of the key code if it is not Keys.None.
      Only a ToolStripMenuItem has shortcut keys. */
  function ShortcutRow(n: Node): seq<string> {
    if n.kind != MenuItem then []
    else
      (if n.alt then ["Alt"] else []) + (if n.control then ["Control"] else [])
      + (if n.shift then ["Shift"] else [])
      + (match n.keyCode case None => [] case Some(k) => [k])
  }

  /** The position of a key name in a shortcut row: modifiers first, in their
      fixed order, then the key. */
  function KeyRank(k: string): nat {
    if k == "Alt" then 0 else if k == "Control" then 1 else if k == "Shift" then 2 else 3
  }

  predicate IsModifierName(k: string) {
    k == "Alt" || k == "Control" || k == "Shift"
  }

  /** A key code's name is never the name of a modifier (Keys.Alt, Keys.Control
      and Keys.Shift lie outside Keys.KeyCode). */
  lemma ShortcutRowSpec(n: Node)
    requires n.keyCode.Some? ==> !IsModifierName(n.keyCode.value)
    ensures "Alt" in ShortcutRow(n) <==> n.kind == MenuItem && n.alt
    ensures "Control" in ShortcutRow(n) <==> n.kind == MenuItem && n.control
    ensures "Shift" in ShortcutRow(n) <==> n.kind == MenuItem && n.shift
    ensures forall k :: k in ShortcutRow(n) && !IsModifierName(k) <==> n.kind == MenuItem && n.keyCode == Some(k)
    ensures forall i, j :: 0 <= i < j < |ShortcutRow(n)| ==> KeyRank(ShortcutRow(n)[i]) < KeyRank(ShortcutRow(n)[j])
  {
    ShortcutRowMembers(n);
    ShortcutRowOrdered(n);
  }

  /** Which names a shortcut row holds. */
  lemma ShortcutRowMembers(n: Node)
    requires n.keyCode.Some? ==> !IsModifierName(n.keyCode.value)
    ensures "Alt" in ShortcutRow(n) <==> n.kind == MenuItem && n.alt
    ensures "Control" in ShortcutRow(n) <==> n.kind == MenuItem && n.control
    ensures "Shift" in ShortcutRow(n) <==> n.kind == MenuItem && n.shift
    ensures forall k :: k in ShortcutRow(n) && !IsModifierName(k) <==> n.kind == MenuItem && n.keyCode == Some(k)
  {
  }

  /** A shortcut row lists its names in rank order. */
  lemma ShortcutRowOrdered(n: Node)
    requires n.keyCode.Some? ==> !IsModifierName(n.keyCode.value)
    ensures forall i, j :: 0 <= i < j < |ShortcutRow(n)| ==> KeyRank(ShortcutRow(n)[i]) < KeyRank(ShortcutRow(n)[j])
  {
  }

  /** The value of property `p` of an item in state `n`. */
  function ItemValue(n: Node, p: Prop): Value {
    match p
    case Type => Str(if n.kind == Separator then "separator" else "standard")
    case Label => Str(match n.text case None => "" case Some(t) => ReplaceAmpersands(t))
    case Enabled => Bool(n.enabled)
    case Visible => Bool(n.available)
    case IconName => Str("")
    case IconData => Bytes(match n.image case None => [] case Some(png) => png)
    case Shortcut => StringRows([ShortcutRow(n)])
    case ToggleType => Str(if n.kind == MenuItem && n.checkOnClick then "checkmark" else "")
    case ToggleState =>
      Int(if n.kind != MenuItem then -1
          else match n.checkState case Checked => 1 case Unchecked => 0 case Indeterminate => 2)
    case ChildrenDisplay => Str(if IsDropDown(n) && |n.dropDownItems| > 0 then "submenu" else "")
    case Disposition => Str("normal")
    case AccessibleDesc => Str(match n.accessibleDescription case None => "" case Some(d) => d)
  }

  /** Values of the same shape: both strings, both booleans, ... */
  predicate SameShape(a: Value, b: Value) {
    (a.Str? && b.Str?) || (a.Bool? && b.Bool?) || (a.Int? && b.Int?) || (a.Bytes? && b.Bytes?)
    || (a.Strings? && b.Strings?) || (a.StringRows? && b.StringRows?)
  }

  /** Every getter returns a value of the type its property is declared with. */
  lemma ItemValueHasDeclaredType(n: Node, p: Prop)
    ensures SameShape(ItemValue(n, p), DefaultMenuItemProxy.SchemaDefault(p))
  {
  }

  /** When the value of each property is default: the condition on the item's
      state under which the property is left out of a reply. */
  predicate IsDefaultState(n: Node, p: Prop) {
    match p
    case Type => n.kind != Separator
    case Label => n.text.None? || n.text.value == ""
    case Enabled => n.enabled
    case Visible => n.available
    case IconName => true
    case IconData => n.image.None? || n.image.value == []
    case Shortcut => n.kind != MenuItem || (!n.alt && !n.control && !n.shift && n.keyCode.None?)
    case ToggleType => !(n.kind == MenuItem && n.checkOnClick)
    case ToggleState => n.kind != MenuItem
    case ChildrenDisplay => !(IsDropDown(n) && |n.dropDownItems| > 0)
    case Disposition => true
    case AccessibleDesc => n.accessibleDescription.None? || n.accessibleDescription.value == ""
  }

  /** An item's value matches the array rule or its schema default exactly
      in the default state. */
  lemma ItemValueDefaultState(n: Node, p: Prop)
    ensures match DefaultMenuItemProxy.ArrayDefault(ItemValue(n, p))
      case Some(b) => b == IsDefaultState(n, p)
      case None => ItemValue(n, p) == DefaultValue(p) <==> IsDefaultState(n, p)
  {
    match p {
      case Label =>
        if n.text.Some? && n.text.value != "" {
          assert |ReplaceAmpersands(n.text.value)| > 0;
        }
      case Shortcut =>
        assert ShortcutRow(n) == [] <==> IsDefaultState(n, p);
      case _ =>
    }
  }

  /** IsDefaultValue, under either name of the property, judges an item's value
      default exactly in the default state. */
  lemma ItemValueIsDefault(n: Node, p: Prop, name: string)
    requires name == DisplayName(p) || name == ClrName(p)
    ensures DefaultMenuItemProxy.IsDefaultValue(Some(name), Some(ItemValue(n, p))) == Ok(IsDefaultState(n, p))
  {
    ItemValueDefaultState(n, p);
    DefaultMenuItemProxy.IsDefaultValueSpec(p, name, ItemValue(n, p));
  }
}
